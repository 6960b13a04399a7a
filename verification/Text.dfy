/** The parts of Go's strings package the models need. */
module Text {

  /** unicode.IsSpace. */
  predicate IsSpace(c: char) {
    || c == '\t' || c == '\n' || c == '\r' || c == ' '
    || c == '\U{000B}' || c == '\U{000C}' || c == '\U{0085}' || c == '\U{00A0}' || c == '\U{1680}'
    || '\U{2000}' <= c <= '\U{200A}' || c == '\U{2028}' || c == '\U{2029}' || c == '\U{202F}' || c == '\U{205F}'
        || c == '\U{3000}'
  }

  function TrimLeft(s: string): string {
    if s != "" && IsSpace(s[0]) then TrimLeft(s[1..]) else s
  }

  function TrimRight(s: string): string {
    if s != "" && IsSpace(s[|s| - 1]) then TrimRight(s[..|s| - 1]) else s
  }

  function TrimSpace(s: string): string {
    TrimRight(TrimLeft(s))
  }

  /** No space at either end. */
  predicate Trimmed(s: string) {
    s != "" ==> !IsSpace(s[0]) && !IsSpace(s[|s| - 1])
  }

  lemma {:induction false} TrimLeftDrops(s: string) returns (k: nat)
    ensures k <= |s| && TrimLeft(s) == s[k..] && (forall i | 0 <= i < k :: IsSpace(s[i]))
    ensures (TrimLeft(s) != "" ==> !IsSpace(TrimLeft(s)[0]))
  {
    if s != "" && IsSpace(s[0]) {
      assert forall i | 0 < i < |s| :: s[i] == s[1..][i - 1];
      var j := TrimLeftDrops(s[1..]);
      k := j + 1;
      assert s[1..][j..] == s[k..];
    } else {
      k := 0;
    }
  }

  lemma {:induction false} TrimRightDrops(s: string) returns (k: nat)
    ensures k <= |s| && TrimRight(s) == s[..k] && (forall i | k <= i < |s| :: IsSpace(s[i]))
    ensures (TrimRight(s) != "" ==> !IsSpace(TrimRight(s)[k - 1]))
  {
    if s != "" && IsSpace(s[|s| - 1]) {
      k := TrimRightDrops(s[..|s| - 1]);
      assert s[..|s| - 1][..k] == s[..k];
    } else {
      k := |s|;
      assert s[..k] == s;
    }
  }

  /** Trimming cuts a piece out of the text: what it cuts off is space, and it leaves no space at the ends. */
  lemma {:induction false} TrimCuts(s: string) returns (i: nat, j: nat)
    ensures i <= j <= |s| && TrimSpace(s) == s[i..j] && Trimmed(TrimSpace(s))
    ensures forall k | 0 <= k < i || j <= k < |s| :: IsSpace(s[k])
  {
    i := TrimLeftDrops(s);
    var k := TrimRightDrops(s[i..]);
    j := i + k;
    assert s[i..][..k] == s[i..j];
    assert forall l | i <= l < |s| :: s[l] == s[i..][l - i];
  }

  lemma TrimmedIsFixed(s: string)
    requires Trimmed(s)
    ensures TrimSpace(s) == s
  {
  }

  lemma TrimIsIdempotent(s: string)
    ensures TrimSpace(TrimSpace(s)) == TrimSpace(s)
  {
    var i, j := TrimCuts(s);
    TrimmedIsFixed(TrimSpace(s));
  }

  predicate OccursAt(s: string, t: string, i: int) {
    0 <= i <= |s| - |t| && s[i..i + |t|] == t
  }

  /** strings.Contains. */
  predicate Contains(s: string, t: string) {
    exists i | 0 <= i <= |s| :: OccursAt(s, t, i)
  }

  lemma ContainedAt(s: string, left: string, t: string, right: string)
    requires s == left + t + right
    ensures Contains(s, t)
  {
    assert OccursAt(s, t, |left|);
  }

  /** Containing is having it somewhere between two parts. */
  lemma ContainsIff(s: string, t: string)
    ensures Contains(s, t) <==> exists left, right :: s == left + t + right
  {
    if i :| 0 <= i <= |s| && OccursAt(s, t, i) {
      assert s == s[..i] + t + s[i + |t|..];
    }
    if left, right :| s == left + t + right {
      ContainedAt(s, left, t, right);
    }
  }

  /** What is in a part is in the whole. */
  lemma ContainedInPart(s: string, left: string, part: string, right: string, t: string)
    requires s == left + part + right && Contains(part, t)
    ensures Contains(s, t)
  {
    var i :| 0 <= i <= |part| && OccursAt(part, t, i);
    assert s[|left| + i..|left| + i + |t|] == t;
    assert OccursAt(s, t, |left| + i);
  }

  /** The number of bytes of a character in UTF-8. */
  function Utf8Size(c: char): nat {
    if c as int < 0x80 then 1 else if c as int < 0x800 then 2 else if c as int < 0x10000 then 3 else 4
  }

  /** Go's len of a string. */
  function Len(s: string): nat {
    if s == "" then 0 else Utf8Size(s[0]) + Len(s[1..])
  }

  /** Lower case of the ASCII letters. */
  function LowerChar(c: char): char {
    if 'A' <= c <= 'Z' then ((c as int) + 32) as char else c
  }

  function ToLower(s: string): (t: string)
    ensures |t| == |s| && forall i | 0 <= i < |s| :: t[i] == LowerChar(s[i])
  {
    if s == "" then "" else [LowerChar(s[0])] + ToLower(s[1..])
  }
}
