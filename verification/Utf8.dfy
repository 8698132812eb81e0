/**
 Texts as the server keeps them: sequences of bytes, one char for each byte. Well-formed UTF-8, what
 becomes of other bytes in JSON, and white space.
 */
module Utf8 {

  predicate InRange(c: char, low: int, high: int) {
    low <= c as int <= high
  }

  /** A byte that continues a character. */
  predicate Continues(c: char) {
    InRange(c, 0x80, 0xBF)
  }

  /** How many bytes the character at the start of the text has, or 0 if there is no well-formed one. */
  function CharSize(s: string): (n: nat)
    ensures n <= |s| && n <= 4
  {
    if s == "" then 0
    else if InRange(s[0], 0, 0x7F) then 1
    else if |s| < 2 then 0
    else if InRange(s[0], 0xC2, 0xDF) then (if Continues(s[1]) then 2 else 0)
    else if |s| < 3 || !Continues(s[2]) then 0
    else if InRange(s[0], 0xE0, 0xEF) then
      (if InRange(s[1], if s[0] as int == 0xE0 then 0xA0 else 0x80, if s[0] as int == 0xED then 0x9F else 0xBF) then 3 else 0)
    else if |s| < 4 || !Continues(s[3]) then 0
    else if InRange(s[0], 0xF0, 0xF4)
            && InRange(s[1], if s[0] as int == 0xF0 then 0x90 else 0x80, if s[0] as int == 0xF4 then 0x8F else 0xBF) then 4
    else 0
  }

  predicate WellFormed(s: string) {
    s == "" || (CharSize(s) > 0 && WellFormed(s[CharSize(s)..]))
  }

  /** The bytes of U+FFFD. */
  const REPLACEMENT: string := ['\U{EF}', '\U{BF}', '\U{BD}']

  /** JSON writes and reads every byte that is not part of a character as U+FFFD. */
  function Repair(s: string): string {
    if s == "" then ""
    else if CharSize(s) > 0 then s[..CharSize(s)] + Repair(s[CharSize(s)..])
    else REPLACEMENT + Repair(s[1..])
  }

  /** A text column takes well-formed UTF-8 without U+0000. */
  predicate Storable(s: string) {
    WellFormed(s) && '\0' !in s
  }

  /** The number of characters of a well-formed text. */
  function Length(s: string): nat {
    if s == "" then 0 else (if Continues(s[0]) then 0 else 1) + Length(s[1..])
  }

  // ---------- characters and what follows them ----------

  /** A character is recognised whatever follows it, and its first byte continues nothing. */
  lemma CharIsLocal(s: string, t: string)
    requires CharSize(s) > 0
    ensures CharSize(s[..CharSize(s)] + t) == CharSize(s)
    ensures !Continues(s[0]) && forall i | 0 < i < CharSize(s) :: Continues(s[i])
  {
    var n := CharSize(s);
    var r := s[..n] + t;
    assert forall i | 0 <= i < n :: r[i] == s[i];
  }

  lemma CharThenRest(s: string, t: string)
    requires CharSize(s) > 0
    ensures WellFormed(s[..CharSize(s)] + t) <==> WellFormed(t)
  {
    CharIsLocal(s, t);
    assert (s[..CharSize(s)] + t)[CharSize(s)..] == t;
  }

  lemma ReplacementThenRest(t: string)
    ensures CharSize(REPLACEMENT + t) == 3 && (REPLACEMENT + t)[3..] == t
    ensures WellFormed(REPLACEMENT + t) <==> WellFormed(t)
  {
    var r := REPLACEMENT + t;
    assert r[0] == '\U{EF}' && r[1] == '\U{BF}' && r[2] == '\U{BD}';
    assert r[3..] == t;
  }

  lemma SameAfter(s: string, n: nat, t: string)
    requires n <= |s|
    ensures s[..n] + t == s <==> t == s[n..]
  {
    assert s[..n] + s[n..] == s;
    assert (s[..n] + t)[n..] == t;
  }

  /** What comes out of JSON is well-formed, and it is what went in exactly if that was well-formed. */
  lemma {:induction false} RepairIff(s: string)
    ensures WellFormed(Repair(s))
    ensures Repair(s) == s <==> WellFormed(s)
  {
    if s != "" {
      var n := CharSize(s);
      if n > 0 {
        RepairIff(s[n..]);
        CharThenRest(s, Repair(s[n..]));
        SameAfter(s, n, Repair(s[n..]));
      } else {
        RepairIff(s[1..]);
        ReplacementThenRest(Repair(s[1..]));
      }
    }
  }

  // ---------- cutting ----------

  /** A prefix of a well-formed text is well-formed exactly if the cut does not fall inside a character. */
  lemma {:induction false} PrefixIff(s: string, n: nat)
    requires WellFormed(s) && n <= |s|
    ensures WellFormed(s[..n]) <==> n == |s| || !Continues(s[n])
    decreases |s|
  {
    if n == |s| {
      assert s[..n] == s;
    } else {
      var k := CharSize(s);
      CharIsLocal(s, "");
      if n >= k {
        PrefixIff(s[k..], n - k);
        CharThenRest(s, s[k..][..n - k]);
        assert s[..n] == s[..k] + s[k..][..n - k];
      } else if n > 0 {
        ShortCharIsNone(s, n);
      }
    }
  }

  lemma ShortCharIsNone(s: string, n: nat)
    requires 0 < n < CharSize(s)
    ensures CharSize(s[..n]) == 0
  {
    var r := s[..n];
    assert forall i | 0 <= i < n :: r[i] == s[i];
  }

  /** So is what comes after such a cut. */
  lemma {:induction false} SuffixIsWellFormed(s: string, n: nat)
    requires WellFormed(s) && n < |s| && !Continues(s[n])
    ensures WellFormed(s[n..])
    decreases |s|
  {
    if n == 0 {
      assert s[0..] == s;
    } else {
      var k := CharSize(s);
      CharIsLocal(s, "");
      SuffixIsWellFormed(s[k..], n - k);
      assert s[k..][n - k..] == s[n..];
    }
  }

  /** Something that starts with an ASCII character does not complete a broken one. */
  lemma {:induction false} AppendIff(s: string, mark: string)
    requires mark != "" && InRange(mark[0], 0, 0x7F) && WellFormed(mark)
    ensures WellFormed(s + mark) <==> WellFormed(s)
    decreases |s|
  {
    if s == "" {
      assert s + mark == mark;
    } else {
      var n := CharSize(s);
      NoCharAcross(s, mark);
      if n > 0 {
        AppendIff(s[n..], mark);
        assert (s + mark)[n..] == s[n..] + mark;
      }
    }
  }

  lemma NoCharAcross(s: string, mark: string)
    requires s != "" && mark != "" && InRange(mark[0], 0, 0x7F)
    ensures CharSize(s + mark) == CharSize(s)
  {
    var r := s + mark;
    assert forall i | 0 <= i < |s| :: r[i] == s[i];
    assert r[|s|] == mark[0];
  }

  // ---------- white space ----------

  /** The bytes of a white space character at position i of the text, or 0. */
  function SpaceSize(s: string, i: nat): (n: nat)
    requires i <= |s|
    ensures i + n <= |s|
  {
    if i == |s| then 0
    else if s[i] == ' ' || InRange(s[i], 0x09, 0x0D) then 1
    else if i + 2 > |s| then 0
    else if s[i] as int == 0xC2 && (s[i + 1] as int == 0x85 || s[i + 1] as int == 0xA0) then 2
    else if i + 3 > |s| then 0
    else if IsWideSpace(s[i] as int, s[i + 1] as int, s[i + 2] as int) then 3
    else 0
  }

  predicate IsWideSpace(a: int, b: int, c: int) {
    || (a == 0xE1 && b == 0x9A && c == 0x80)
    || (a == 0xE2 && b == 0x80 && (0x80 <= c <= 0x8A || c == 0xA8 || c == 0xA9 || c == 0xAF))
    || (a == 0xE2 && b == 0x81 && c == 0x9F)
    || (a == 0xE3 && b == 0x80 && c == 0x80)
  }

  /** The bytes of a white space character at the end of the text, or 0. */
  function SpaceAtEnd(s: string): (n: nat)
    ensures n <= |s| && (n > 0 ==> SpaceSize(s, |s| - n) == n)
  {
    if |s| >= 1 && SpaceSize(s, |s| - 1) == 1 then 1
    else if |s| >= 2 && SpaceSize(s, |s| - 2) == 2 then 2
    else if |s| >= 3 && SpaceSize(s, |s| - 3) == 3 then 3
    else 0
  }

  function TrimLeft(s: string): string {
    if SpaceSize(s, 0) > 0 then TrimLeft(s[SpaceSize(s, 0)..]) else s
  }

  function TrimRight(s: string): string
    decreases |s|
  {
    if SpaceAtEnd(s) > 0 then TrimRight(s[..|s| - SpaceAtEnd(s)]) else s
  }

  function TrimSpace(s: string): string {
    TrimRight(TrimLeft(s))
  }

  lemma {:induction false} TrimLeftStart(s: string)
    ensures SpaceSize(TrimLeft(s), 0) == 0
    ensures WellFormed(s) ==> WellFormed(TrimLeft(s))
  {
    if SpaceSize(s, 0) > 0 {
      TrimLeftStart(s[SpaceSize(s, 0)..]);
    }
  }

  lemma {:induction false} TrimRightEnd(s: string)
    ensures TrimRight(s) <= s && SpaceAtEnd(TrimRight(s)) == 0
    ensures WellFormed(s) ==> WellFormed(TrimRight(s))
    decreases |s|
  {
    var n := SpaceAtEnd(s);
    if n > 0 {
      TrimRightEnd(s[..|s| - n]);
      assert TrimRight(s) == TrimRight(s[..|s| - n]) <= s[..|s| - n] <= s;
      CutBeforeSpace(s);
    }
  }

  lemma CutBeforeSpace(s: string)
    requires SpaceAtEnd(s) > 0
    ensures WellFormed(s) ==> WellFormed(s[..|s| - SpaceAtEnd(s)])
  {
    if WellFormed(s) {
      PrefixIff(s, |s| - SpaceAtEnd(s));
    }
  }

  /** What is left has no white space at either end, and is well-formed if the text was. */
  lemma Trimmed(s: string)
    ensures SpaceSize(TrimSpace(s), 0) == 0 && SpaceAtEnd(TrimSpace(s)) == 0
    ensures WellFormed(s) ==> WellFormed(TrimSpace(s))
  {
    TrimLeftStart(s);
    TrimRightEnd(TrimLeft(s));
    var l, r := TrimLeft(s), TrimSpace(s);
    assert forall i | 0 <= i < |r| :: r[i] == l[i];
  }

  // ---------- many replacement characters ----------

  function Repeat(s: string, n: nat): string {
    if n == 0 then "" else s + Repeat(s, n - 1)
  }

  lemma {:induction false} ReplacementsThenRest(n: nat, t: string)
    ensures |Repeat(REPLACEMENT, n)| == 3 * n
    ensures WellFormed(Repeat(REPLACEMENT, n) + t) <==> WellFormed(t)
  {
    if n == 0 {
      assert Repeat(REPLACEMENT, 0) + t == t;
    } else {
      ReplacementsThenRest(n - 1, t);
      ReplacementThenRest(Repeat(REPLACEMENT, n - 1) + t);
      assert Repeat(REPLACEMENT, n) + t == REPLACEMENT + (Repeat(REPLACEMENT, n - 1) + t);
    }
  }

  /** So many bytes 0xFF are read as so many replacement characters. */
  lemma {:induction false} RepairOfBroken(n: nat)
    ensures Repair(Repeat(['\U{FF}'], n)) == Repeat(REPLACEMENT, n)
  {
    if n > 0 {
      RepairOfBroken(n - 1);
      assert Repeat(['\U{FF}'], n)[0] == '\U{FF}';
      assert Repeat(['\U{FF}'], n)[1..] == Repeat(['\U{FF}'], n - 1);
    }
  }
}
