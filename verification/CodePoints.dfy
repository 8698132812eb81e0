/**
 Characters by their numbers, and what the byte functions of texts mean for them: which byte strings are
 sequences of characters, how many characters they are, what is repaired, and what is trimmed.
 */
module CodePoints {
  import opened Utf8

  /** The code points that can be encoded: all but the surrogates. */
  type Scalar = cp: nat | cp < 0xD800 || 0xE000 <= cp < 0x11_0000

  /** The bytes of a character (section 3 of RFC 3629). */
  function Encode(cp: Scalar): string {
    if cp < 0x80 then [cp as char]
    else if cp < 0x800 then [(0xC0 + cp / 0x40) as char, (0x80 + cp % 0x40) as char]
    else if cp < 0x1_0000 then [(0xE0 + cp / 0x1000) as char, (0x80 + cp / 0x40 % 0x40) as char, (0x80 + cp % 0x40) as char]
    else [(0xF0 + cp / 0x4_0000) as char, (0x80 + cp / 0x1000 % 0x40) as char,
          (0x80 + cp / 0x40 % 0x40) as char, (0x80 + cp % 0x40) as char]
  }

  function Encoded(cps: seq<Scalar>): string {
    if cps == [] then "" else Encode(cps[0]) + Encoded(cps[1..])
  }

  // ---------- which byte strings are texts ----------

  lemma SizeOfShort(cp: Scalar, t: string)
    requires cp < 0x800
    ensures CharSize(Encode(cp) + t) == |Encode(cp)| > 0
  {
    var s := Encode(cp) + t;
    assert forall i | 0 <= i < |Encode(cp)| :: s[i] == Encode(cp)[i];
  }

  lemma SizeOfThree(cp: Scalar, t: string)
    requires 0x800 <= cp < 0x1_0000
    ensures CharSize(Encode(cp) + t) == |Encode(cp)| > 0
  {
    var e, s := Encode(cp), Encode(cp) + t;
    assert s[0] == e[0] && s[1] == e[1] && s[2] == e[2] && |s| >= 3;
    assert 0xE0 <= e[0] as int <= 0xEF && Continues(e[2]);
    assert e[0] as int == 0xE0 ==> e[1] as int >= 0xA0;
    assert e[0] as int == 0xED ==> e[1] as int <= 0x9F;
  }

  lemma SizeOfFour(cp: Scalar, t: string)
    requires 0x1_0000 <= cp
    ensures CharSize(Encode(cp) + t) == |Encode(cp)| > 0
  {
    var s := Encode(cp) + t;
    assert s[0] == Encode(cp)[0] && s[1] == Encode(cp)[1] && s[2] == Encode(cp)[2] && s[3] == Encode(cp)[3];
  }

  /** An encoded character is recognised, whatever follows. */
  lemma EncodedIsRecognised(cp: Scalar, t: string)
    ensures CharSize(Encode(cp) + t) == |Encode(cp)| > 0
  {
    if cp < 0x800 {
      SizeOfShort(cp, t);
    } else if cp < 0x1_0000 {
      SizeOfThree(cp, t);
    } else {
      SizeOfFour(cp, t);
    }
  }

  lemma Digits2(a: nat, b: nat)
    requires b < 0x40
    ensures (a * 0x40 + b) / 0x40 == a && (a * 0x40 + b) % 0x40 == b
  {
  }

  lemma Digits3(a: nat, b: nat, c: nat)
    requires b < 0x40 && c < 0x40
    ensures var cp := a * 0x1000 + b * 0x40 + c; cp / 0x1000 == a && cp / 0x40 % 0x40 == b && cp % 0x40 == c
  {
    Digits2(a * 0x40 + b, c);
    Digits2(a, b);
  }

  lemma Digits4(a: nat, b: nat, c: nat, d: nat)
    requires b < 0x40 && c < 0x40 && d < 0x40
    ensures var cp := a * 0x4_0000 + b * 0x1000 + c * 0x40 + d;
            cp / 0x4_0000 == a && cp / 0x1000 % 0x40 == b && cp / 0x40 % 0x40 == c && cp % 0x40 == d
  {
    Digits3(a * 0x40 + b, c, d);
    Digits2(a, b);
  }

  lemma RecognisedTwo(s: string) returns (cp: Scalar)
    requires CharSize(s) == 2
    ensures Encode(cp) == [s[0], s[1]]
  {
    Digits2(s[0] as int - 0xC0, s[1] as int - 0x80);
    cp := (s[0] as int - 0xC0) * 0x40 + (s[1] as int - 0x80);
  }

  lemma RecognisedThree(s: string) returns (cp: Scalar)
    requires CharSize(s) == 3
    ensures Encode(cp) == [s[0], s[1], s[2]]
  {
    var a, b, c := s[0] as int - 0xE0, s[1] as int - 0x80, s[2] as int - 0x80;
    Digits3(a, b, c);
    assert 0x800 <= a * 0x1000 + b * 0x40 + c < 0x1_0000;
    cp := a * 0x1000 + b * 0x40 + c;
  }

  lemma RecognisedFour(s: string) returns (cp: Scalar)
    requires CharSize(s) == 4
    ensures Encode(cp) == [s[0], s[1], s[2], s[3]]
  {
    var a, b, c, d := s[0] as int - 0xF0, s[1] as int - 0x80, s[2] as int - 0x80, s[3] as int - 0x80;
    Digits4(a, b, c, d);
    assert 0x1_0000 <= a * 0x4_0000 + b * 0x1000 + c * 0x40 + d < 0x11_0000;
    cp := a * 0x4_0000 + b * 0x1000 + c * 0x40 + d;
  }

  /** What is recognised as a character is one. */
  lemma RecognisedIsEncoded(s: string) returns (cp: Scalar)
    requires CharSize(s) > 0
    ensures Encode(cp) == s[..CharSize(s)]
  {
    var n := CharSize(s);
    if n == 1 {
      cp := s[0] as int;
    } else if n == 2 {
      cp := RecognisedTwo(s);
    } else if n == 3 {
      cp := RecognisedThree(s);
    } else {
      cp := RecognisedFour(s);
    }
  }

  lemma EncodedAnd(cp: Scalar, cps: seq<Scalar>, t: string)
    ensures Encoded([cp] + cps) + t == Encode(cp) + (Encoded(cps) + t)
    ensures Encoded([cp] + cps) == Encode(cp) + Encoded(cps)
  {
    assert ([cp] + cps)[1..] == cps;
  }

  lemma ThreeStrings(x: string, y: string, z: string)
    ensures x + (y + z) == x + y + z
  {
  }

  lemma {:induction false} EncodedSum(a: seq<Scalar>, b: seq<Scalar>)
    ensures Encoded(a + b) == Encoded(a) + Encoded(b)
  {
    if a == [] {
      assert a + b == b;
    } else {
      var first, rest := a[0], a[1..];
      EncodedSum(rest, b);
      EncodedAnd(first, rest + b, "");
      assert a + b == [first] + (rest + b);
      ThreeStrings(Encode(first), Encoded(rest), Encoded(b));
    }
  }

  lemma EncodedTwo(a: Scalar, b: Scalar)
    ensures Encoded([a, b]) == Encode(a) + Encode(b)
  {
    EncodedAnd(a, [b], "");
    EncodedAnd(b, [], "");
    assert [a] + [b] == [a, b] && [b] + [] == [b];
  }

  lemma {:induction false} EncodedIsWellFormed(cps: seq<Scalar>)
    ensures WellFormed(Encoded(cps))
  {
    if cps != [] {
      EncodedIsRecognised(cps[0], Encoded(cps[1..]));
      EncodedIsWellFormed(cps[1..]);
      assert Encoded(cps)[|Encode(cps[0])|..] == Encoded(cps[1..]);
    }
  }

  lemma Rejoin(s: string, n: nat, cp: Scalar, rest: seq<Scalar>)
    requires n <= |s| && Encode(cp) == s[..n] && Encoded(rest) == s[n..]
    ensures Encoded([cp] + rest) == s
  {
    EncodedAnd(cp, rest, "");
    assert s[..n] + s[n..] == s;
  }

  lemma {:induction false} Decode(s: string) returns (cps: seq<Scalar>)
    requires WellFormed(s)
    ensures Encoded(cps) == s
  {
    if s == "" {
      cps := [];
    } else {
      var n := CharSize(s);
      var cp := RecognisedIsEncoded(s);
      var rest := Decode(s[n..]);
      cps := [cp] + rest;
      Rejoin(s, n, cp, rest);
    }
  }

  /** A byte string is a well-formed text exactly if it is the encoding of some characters. */
  lemma WellFormedIff(s: string)
    ensures WellFormed(s) <==> exists cps: seq<Scalar> :: Encoded(cps) == s
  {
    if WellFormed(s) {
      var cps := Decode(s);
    }
    if cps: seq<Scalar> :| Encoded(cps) == s {
      EncodedIsWellFormed(cps);
    }
  }

  // ---------- how long they are, and what is stored ----------

  lemma {:induction false} LengthOfSum(a: string, b: string)
    ensures Length(a + b) == Length(a) + Length(b)
  {
    if a == "" {
      assert a + b == b;
    } else {
      LengthOfSum(a[1..], b);
      assert (a + b)[1..] == a[1..] + b;
    }
  }

  lemma {:induction false} LengthOfContinuation(s: string)
    requires forall i | 0 <= i < |s| :: Continues(s[i])
    ensures Length(s) == 0
  {
    if s != "" {
      LengthOfContinuation(s[1..]);
    }
  }

  lemma LengthOfOne(cp: Scalar)
    ensures Length(Encode(cp)) == 1
  {
    var e := Encode(cp);
    EncodedIsRecognised(cp, "");
    assert e + "" == e && e[..|e|] == e;
    CharIsLocal(e, "");
    LengthOfContinuation(e[1..]);
  }

  lemma {:induction false} LengthOfEncoded(cps: seq<Scalar>)
    ensures Length(Encoded(cps)) == |cps|
  {
    if cps != [] {
      LengthOfEncoded(cps[1..]);
      LengthOfSum(Encode(cps[0]), Encoded(cps[1..]));
      LengthOfOne(cps[0]);
    }
  }

  lemma NulOnlyInNul(cp: Scalar)
    ensures '\0' in Encode(cp) <==> cp == 0
  {
    if cp == 0 {
      assert Encode(cp)[0] == '\0';
    }
  }

  lemma {:induction false} NulInEncoded(cps: seq<Scalar>)
    ensures '\0' in Encoded(cps) <==> 0 in cps
  {
    if cps != [] {
      NulOnlyInNul(cps[0]);
      NulInEncoded(cps[1..]);
      assert cps == [cps[0]] + cps[1..];
    }
  }

  /** A column for text takes exactly the encodings of characters other than U+0000. */
  lemma StorableIff(s: string)
    ensures Storable(s) <==> exists cps: seq<Scalar> :: Encoded(cps) == s && 0 !in cps
  {
    if Storable(s) {
      var cps := Decode(s);
      NulInEncoded(cps);
    }
    if cps: seq<Scalar> :| Encoded(cps) == s && 0 !in cps {
      EncodedIsWellFormed(cps);
      NulInEncoded(cps);
    }
  }

  // ---------- what is repaired ----------

  lemma ReplacementIsEncoded()
    ensures Encode(0xFFFD) == REPLACEMENT
  {
  }

  lemma RepairKeepsOne(cp: Scalar, t: string)
    ensures Repair(Encode(cp) + t) == Encode(cp) + Repair(t)
  {
    var e := Encode(cp);
    EncodedIsRecognised(cp, t);
    assert (e + t)[..|e|] == e && (e + t)[|e|..] == t;
  }

  /** No character starts here. */
  ghost predicate StartsNone(rest: string) {
    forall cp: Scalar :: !(Encode(cp) <= rest)
  }

  lemma NoneIsRepaired(rest: string)
    requires rest != "" && StartsNone(rest)
    ensures Repair(rest) == Encode(0xFFFD) + Repair(rest[1..])
  {
    if CharSize(rest) > 0 {
      var cp := RecognisedIsEncoded(rest);
    }
  }

  /** Well-formed text is kept, and a byte with which no character starts becomes U+FFFD. */
  lemma {:induction false} RepairIsExact(cps: seq<Scalar>, rest: string)
    ensures rest == "" ==> Repair(Encoded(cps) + rest) == Encoded(cps)
    ensures rest != "" && StartsNone(rest) ==>
              Repair(Encoded(cps) + rest) == Encoded(cps) + Encode(0xFFFD) + Repair(rest[1..])
  {
    RepairKeepsText(cps, rest);
    if rest != "" && StartsNone(rest) {
      NoneIsRepaired(rest);
      assert Encoded(cps) + (Encode(0xFFFD) + Repair(rest[1..])) == Encoded(cps) + Encode(0xFFFD) + Repair(rest[1..]);
    }
  }

  lemma {:induction false} RepairKeepsText(cps: seq<Scalar>, rest: string)
    ensures Repair(Encoded(cps) + rest) == Encoded(cps) + Repair(rest)
  {
    if cps == [] {
      assert Encoded(cps) + rest == rest;
    } else {
      RepairKeepsText(cps[1..], rest);
      RepairKeepsOne(cps[0], Encoded(cps[1..]) + rest);
      assert [cps[0]] + cps[1..] == cps;
      EncodedAnd(cps[0], cps[1..], rest);
      EncodedAnd(cps[0], cps[1..], Repair(rest));
    }
  }

  // ---------- what is trimmed ----------

  /** The characters with the property White_Space of Unicode. */
  predicate IsWhite(cp: nat) {
    || 0x09 <= cp <= 0x0D || cp == 0x20 || cp == 0x85 || cp == 0xA0 || cp == 0x1680
    || 0x2000 <= cp <= 0x200A || cp == 0x2028 || cp == 0x2029 || cp == 0x202F || cp == 0x205F || cp == 0x3000
  }

  predicate AllWhite(cps: seq<Scalar>) {
    forall cp | cp in cps :: IsWhite(cp)
  }

  /** No white space at the start of the text, and none at its end. */
  ghost predicate StartsInk(t: string) {
    forall cp: Scalar | IsWhite(cp) :: !(Encode(cp) <= t)
  }

  ghost predicate EndsInk(t: string) {
    forall cp: Scalar, u: string | IsWhite(cp) && u <= t :: u + Encode(cp) != t
  }

  lemma WhiteIsSpace(cp: Scalar, t: string)
    requires IsWhite(cp)
    ensures SpaceSize(Encode(cp) + t, 0) == |Encode(cp)| <= 3 && !Continues(Encode(cp)[0])
  {
    var e, s := Encode(cp), Encode(cp) + t;
    assert forall i | 0 <= i < |e| :: s[i] == e[i];
  }

  lemma SpaceIsWhite(s: string, i: nat) returns (cp: Scalar)
    requires i <= |s| && SpaceSize(s, i) > 0
    ensures IsWhite(cp) && Encode(cp) == s[i..i + SpaceSize(s, i)]
  {
    var n := SpaceSize(s, i);
    if n == 1 {
      cp := s[i] as int;
    } else if n == 2 {
      cp := s[i + 1] as int;
    } else {
      cp := WideIsWhite(s[i] as int, s[i + 1] as int, s[i + 2] as int);
      assert s[i..i + 3] == [s[i], s[i + 1], s[i + 2]];
    }
  }

  lemma WideIsWhite(a: nat, b: nat, c: nat) returns (cp: Scalar)
    requires IsWideSpace(a, b, c)
    ensures IsWhite(cp) && Encode(cp) == [a as char, b as char, c as char]
  {
    Digits3(a - 0xE0, b - 0x80, c - 0x80);
    cp := (a - 0xE0) * 0x1000 + (b - 0x80) * 0x40 + (c - 0x80);
  }

  lemma TrimsOneLeft(cp: Scalar, t: string)
    requires IsWhite(cp)
    ensures TrimLeft(Encode(cp) + t) == TrimLeft(t)
  {
    var e := Encode(cp);
    WhiteIsSpace(cp, t);
    EncodedIsRecognised(cp, t);
    assert (e + t)[|e|..] == t;
  }

  lemma {:induction false} TrimsWhiteLeft(l: seq<Scalar>, t: string)
    requires AllWhite(l)
    ensures TrimLeft(Encoded(l) + t) == TrimLeft(t)
  {
    if l == [] {
      assert Encoded(l) + t == t;
    } else {
      TrimsOneLeft(l[0], Encoded(l[1..]) + t);
      TrimsWhiteLeft(l[1..], t);
      assert [l[0]] + l[1..] == l;
      EncodedAnd(l[0], l[1..], t);
    }
  }

  lemma SpaceAtTheEnd(u: string, cp: Scalar)
    requires IsWhite(cp)
    ensures SpaceAtEnd(u + Encode(cp)) == |Encode(cp)|
  {
    var e, s := Encode(cp), u + Encode(cp);
    assert forall i | 0 <= i < |e| :: s[|u| + i] == e[i];
  }

  lemma EncodedLast(r: seq<Scalar>, cp: Scalar)
    ensures Encoded(r + [cp]) == Encoded(r) + Encode(cp)
    decreases |r|
  {
    if r == [] {
      assert Encoded([cp]) == Encode(cp) + Encoded([]);
    } else {
      EncodedLast(r[1..], cp);
      assert (r + [cp])[1..] == r[1..] + [cp];
    }
  }

  lemma {:induction false} TrimsWhiteRight(t: string, r: seq<Scalar>)
    requires AllWhite(r)
    ensures TrimRight(t + Encoded(r)) == TrimRight(t)
    decreases |r|
  {
    if r == [] {
      assert t + Encoded(r) == t;
    } else {
      var before, last := r[..|r| - 1], r[|r| - 1];
      var u := t + Encoded(before);
      EncodedLast(before, last);
      assert r == before + [last] && t + Encoded(r) == u + Encode(last);
      SpaceAtTheEnd(u, last);
      TrimsWhiteRight(t, before);
      assert (u + Encode(last))[..|u|] == u;
    }
  }

  /** Nothing that follows a text makes its start white, unless it continues a character. */
  lemma StartStaysInk(t: string, v: string)
    requires t != "" && SpaceSize(t, 0) == 0 && (v == "" || !Continues(v[0]))
    ensures SpaceSize(t + v, 0) == 0
  {
    var s := t + v;
    assert s[0] == t[0] && (|t| > 1 ==> s[1] == t[1]) && (|t| > 2 ==> s[2] == t[2]);
    assert v != "" ==> s[|t|] == v[0];
  }

  lemma StartIsWhite(t: string) returns (cp: Scalar)
    requires SpaceSize(t, 0) > 0
    ensures IsWhite(cp) && Encode(cp) <= t
  {
    cp := SpaceIsWhite(t, 0);
  }

  lemma EndIsWhite(t: string) returns (u: string, cp: Scalar)
    requires SpaceAtEnd(t) > 0
    ensures IsWhite(cp) && u <= t && u + Encode(cp) == t
  {
    u := t[..|t| - SpaceAtEnd(t)];
    cp := SpaceIsWhite(t, |t| - SpaceAtEnd(t));
  }

  lemma StartHasNoSpace(t: string)
    requires StartsInk(t)
    ensures SpaceSize(t, 0) == 0
  {
    if SpaceSize(t, 0) > 0 {
      var cp := StartIsWhite(t);
    }
  }

  lemma EndHasNoSpace(t: string)
    requires EndsInk(t)
    ensures SpaceAtEnd(t) == 0
  {
    if SpaceAtEnd(t) > 0 {
      var u, cp := EndIsWhite(t);
    }
  }

  lemma FirstOfWhite(r: seq<Scalar>)
    requires AllWhite(r) && r != []
    ensures Encoded(r) != "" && !Continues(Encoded(r)[0])
  {
    WhiteIsSpace(r[0], Encoded(r[1..]));
    EncodedIsRecognised(r[0], "");
  }

  lemma TrimsWhiteOnly(l: seq<Scalar>, r: seq<Scalar>)
    requires AllWhite(l) && AllWhite(r)
    ensures TrimLeft(Encoded(l) + Encoded(r)) == ""
  {
    TrimsWhiteLeft(l, Encoded(r));
    TrimsWhiteLeft(r, "");
    assert Encoded(r) + "" == Encoded(r);
  }

  lemma TrimsAround(l: seq<Scalar>, t: string, r: seq<Scalar>)
    requires AllWhite(l) && AllWhite(r) && t != "" && SpaceSize(t, 0) == 0 && SpaceAtEnd(t) == 0
    ensures TrimRight(TrimLeft(Encoded(l) + (t + Encoded(r)))) == t
  {
    TrimsWhiteLeft(l, t + Encoded(r));
    if r != [] {
      FirstOfWhite(r);
    }
    StartStaysInk(t, Encoded(r));
    TrimsWhiteRight(t, r);
  }

  /** Trimming takes away exactly the white space around a text that has none at its start and end. */
  lemma TrimIsExact(l: seq<Scalar>, t: string, r: seq<Scalar>)
    requires AllWhite(l) && AllWhite(r) && StartsInk(t) && EndsInk(t)
    ensures TrimSpace(Encoded(l) + t + Encoded(r)) == t
  {
    if t == "" {
      TrimsWhiteOnly(l, r);
      assert Encoded(l) + t == Encoded(l);
    } else {
      StartHasNoSpace(t);
      EndHasNoSpace(t);
      TrimsAround(l, t, r);
      assert Encoded(l) + t + Encoded(r) == Encoded(l) + (t + Encoded(r));
    }
  }
}
