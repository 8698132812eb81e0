/** The string and path operations of the standard library that keys and file names go through. */
module Strings {

  /** The first position of the character, or -1. */
  function IndexOf(s: string, c: char): (i: int)
    ensures -1 <= i < |s|
  {
    if s == "" then -1
    else if s[0] == c then 0
    else
      var rest := IndexOf(s[1..], c);
      if rest < 0 then -1 else rest + 1
  }

  lemma {:induction false} FirstIndex(s: string, c: char)
    ensures var i := IndexOf(s, c);
            && (i >= 0 ==> s[i] == c)
            && (forall k | 0 <= k < (if i < 0 then |s| else i) :: s[k] != c)
  {
    if s != "" && s[0] != c {
      FirstIndex(s[1..], c);
      assert forall k | 1 <= k < |s| :: s[k] == s[1..][k - 1];
    }
  }

  lemma IndexAfterPrefix(a: string, c: char, b: string)
    requires c !in a
    ensures IndexOf(a + [c] + b, c) == |a|
  {
    var s := a + [c] + b;
    FirstIndex(s, c);
    assert s[|a|] == c;
    assert forall i | 0 <= i < |a| :: s[i] == a[i];
  }

  /** The pieces between the separators: one more than there are separators. */
  function Split(s: string, c: char): (parts: seq<string>)
    ensures |parts| > 0
    decreases |s|
  {
    var i := IndexOf(s, c);
    if i < 0 then [s] else [s[..i]] + Split(s[i + 1..], c)
  }

  lemma SplitFirst(a: string, c: char, b: string)
    requires c !in a
    ensures Split(a + [c] + b, c) == [a] + Split(b, c)
  {
    IndexAfterPrefix(a, c, b);
    var s := a + [c] + b;
    assert s[..|a|] == a && s[|a| + 1..] == b;
  }

  /** There is one piece exactly when there is no separator. */
  lemma {:induction false} SplitIsWholeIff(s: string, c: char)
    ensures Split(s, c) == [s] <==> c !in s
    ensures |Split(s, c)| >= 2 <==> c in s
  {
    FirstIndex(s, c);
    if IndexOf(s, c) >= 0 {
      assert |Split(s, c)| == 1 + |Split(s[IndexOf(s, c) + 1..], c)|;
    }
  }

  function Join(parts: seq<string>, c: char): string {
    if parts == [] then "" else if |parts| == 1 then parts[0] else parts[0] + [c] + Join(parts[1..], c)
  }

  lemma JoinOneMore(p: string, parts: seq<string>, c: char)
    requires parts != []
    ensures Join([p] + parts, c) == p + [c] + Join(parts, c)
  {
    assert ([p] + parts)[1..] == parts;
  }

  /** The pieces put together again are the string. */
  lemma {:induction false} JoinOfSplit(s: string, c: char)
    ensures Join(Split(s, c), c) == s
    decreases |s|
  {
    FirstIndex(s, c);
    var i := IndexOf(s, c);
    if i >= 0 {
      var rest := s[i + 1..];
      JoinOfSplit(rest, c);
      JoinOneMore(s[..i], Split(rest, c), c);
      assert s[..i] + [c] + rest == s;
    }
  }

  /** None of the pieces has a separator in it. */
  lemma {:induction false} PiecesOfSplit(s: string, c: char)
    ensures forall p | p in Split(s, c) :: c !in p
    decreases |s|
  {
    var i := IndexOf(s, c);
    FirstIndex(s, c);
    if i >= 0 {
      PiecesOfSplit(s[i + 1..], c);
    }
  }

  function ReplaceAll(s: string, c: char, sub: char): (r: string)
    ensures |r| == |s| && forall i | 0 <= i < |s| :: r[i] == if s[i] == c then sub else s[i]
  {
    seq(|s|, i requires 0 <= i < |s| => if s[i] == c then sub else s[i])
  }

  function StripTrailingSlashes(s: string): string {
    if s != "" && s[|s| - 1] == '/' then StripTrailingSlashes(s[..|s| - 1]) else s
  }

  /** The last position of the character, or -1. */
  function LastIndexOf(s: string, c: char): (i: int)
    ensures -1 <= i < |s|
  {
    if s == "" then -1
    else if s[|s| - 1] == c then |s| - 1
    else LastIndexOf(s[..|s| - 1], c)
  }

  lemma {:induction false} LastIndex(s: string, c: char)
    ensures LastIndexOf(s, c) >= 0 ==> s[LastIndexOf(s, c)] == c
    ensures forall k | LastIndexOf(s, c) < k < |s| :: s[k] != c
  {
    if s != "" && s[|s| - 1] != c {
      LastIndex(s[..|s| - 1], c);
    }
  }

  /** What comes after the last separator. */
  function AfterLast(s: string, c: char): string {
    s[LastIndexOf(s, c) + 1..]
  }

  lemma AfterLastHasNone(s: string, c: char)
    ensures c !in AfterLast(s, c)
  {
    LastIndex(s, c);
  }

  /** The last element of a path. */
  function Base(path: string): string {
    if path == "" then "."
    else
      var last := AfterLast(StripTrailingSlashes(path), '/');
      if last == "" then "/" else last
  }

  lemma {:induction false} LastIndexIs(s: string, c: char, k: int)
    requires -1 <= k < |s| && (k >= 0 ==> s[k] == c) && forall j | k < j < |s| :: s[j] != c
    ensures LastIndexOf(s, c) == k
  {
    LastIndex(s, c);
  }

  lemma LastIndexAfter(s: string, c: char, i: nat, rest: string)
    requires i < |s| && s[i] == c && rest == s[i + 1..]
    ensures LastIndexOf(s, c) == i + 1 + LastIndexOf(rest, c)
  {
    var k := i + 1 + LastIndexOf(rest, c);
    LastIndex(rest, c);
    forall j | k < j < |s| ensures s[j] != c {
      assert s[j] == rest[j - i - 1];
    }
    LastIndexIs(s, c, k);
  }

  /** Cutting a string off after its first separator leaves what comes after its last one. */
  lemma {:induction false} AfterLastOfRest(s: string, c: char)
    ensures var i := IndexOf(s, c); AfterLast(s, c) == if i < 0 then s else AfterLast(s[i + 1..], c)
  {
    var i := IndexOf(s, c);
    FirstIndex(s, c);
    if i < 0 {
      LastIndexIs(s, c, -1);
    } else {
      LastIndexAfter(s, c, i, s[i + 1..]);
    }
  }

  function Last<T>(s: seq<T>): T
    requires |s| > 0
  {
    s[|s| - 1]
  }

  lemma LastOfCons<T>(whole: seq<T>, x: T, t: seq<T>)
    requires |t| > 0 && whole == [x] + t
    ensures |whole| > 0 && Last(whole) == Last(t)
  {
  }

  lemma {:induction false} SplitStep(s: string, c: char)
    ensures var i := IndexOf(s, c);
            Split(s, c) == if i < 0 then [s] else [s[..i]] + Split(s[i + 1..], c)
  {
  }

  lemma LastOfRest(s: string, c: char, i: nat)
    requires i == IndexOf(s, c)
    ensures Last(Split(s, c)) == Last(Split(s[i + 1..], c))
  {
    SplitStep(s, c);
    LastOfCons(Split(s, c), s[..i], Split(s[i + 1..], c));
  }

  /** The last piece of a path is what comes after its last slash. */
  lemma {:induction false} LastPiece(s: string, c: char)
    ensures Last(Split(s, c)) == AfterLast(s, c)
    decreases |s|
  {
    AfterLastOfRest(s, c);
    var i := IndexOf(s, c);
    if i < 0 {
      SplitStep(s, c);
    } else {
      LastPiece(s[i + 1..], c);
      LastOfRest(s, c, i);
    }
  }

  lemma {:induction false} StrippedEnd(s: string)
    ensures var t := StripTrailingSlashes(s);
            t <= s && (t != "" ==> t[|t| - 1] != '/') && (t == "" <==> forall i | 0 <= i < |s| :: s[i] == '/')
  {
    if s != "" && s[|s| - 1] == '/' {
      StrippedEnd(s[..|s| - 1]);
    }
  }

  /** Nothing comes after the last slash exactly when it ends the path. */
  lemma LastIsEmptyIff(s: string)
    requires s != ""
    ensures |AfterLast(s, '/')| == 0 <==> s[|s| - 1] == '/'
  {
    LastIndex(s, '/');
  }

  predicate OnlySlashes(path: string) {
    path != "" && forall i | 0 <= i < |path| :: path[i] == '/'
  }

  lemma OnlySlashesIff(path: string)
    requires path != ""
    ensures AfterLast(StripTrailingSlashes(path), '/') == "" <==> OnlySlashes(path)
  {
    StrippedEnd(path);
    var t := StripTrailingSlashes(path);
    if t != "" {
      LastIsEmptyIff(t);
    }
  }

  /** The last element of a path is free of slashes unless the path consists of slashes only. */
  lemma BaseHasSlashIff(path: string)
    ensures '/' in Base(path) <==> OnlySlashes(path)
    ensures Base(path) != ""
  {
    if path == "" {
      assert Base(path) == ".";
    } else {
      OnlySlashesIff(path);
      AfterLastHasNone(StripTrailingSlashes(path), '/');
    }
  }

  lemma {:induction false} StrippedAfter(s: string, slashes: string)
    requires forall i | 0 <= i < |slashes| :: slashes[i] == '/'
    ensures StripTrailingSlashes(s + slashes) == StripTrailingSlashes(s)
    decreases |slashes|
  {
    if slashes == "" {
      assert s + slashes == s;
    } else {
      var less := slashes[..|slashes| - 1];
      StrippedAfter(s, less);
      assert (s + slashes)[..|s + slashes| - 1] == s + less;
    }
  }

  /**
   The last element of a path, spelled out: the name after the last slash, whatever directories are before
   it and however many slashes after it. Without a name it is a dot or a slash.
   */
  lemma BaseOfPath(dir: string, name: string, slashes: string)
    requires '/' !in name && name != "" && forall i | 0 <= i < |slashes| :: slashes[i] == '/'
    ensures Base(dir + "/" + name + slashes) == name && Base(name + slashes) == name
    ensures Base(slashes) == if slashes == "" then "." else "/"
  {
    LastNameOfPath(dir + "/" + name, |dir|, name, slashes);
    LastNameOfPath(name, -1, name, slashes);
    assert "" + slashes == slashes;
    StrippedAfter("", slashes);
    assert AfterLast("", '/') == "";
  }

  lemma LastNameOfPath(path: string, i: int, name: string, slashes: string)
    requires -1 <= i < |path| && (i >= 0 ==> path[i] == '/') && name == path[i + 1..] && name != "" && '/' !in name
    requires forall j | 0 <= j < |slashes| :: slashes[j] == '/'
    ensures Base(path + slashes) == name
  {
    assert path[|path| - 1] == name[|name| - 1] && name[|name| - 1] in name;
    StrippedAfter(path, slashes);
    assert StripTrailingSlashes(path) == path;
    forall k | i < k < |path| ensures path[k] != '/' {
      assert path[k] == name[k - i - 1];
    }
    LastIndexIs(path, '/', i);
  }

  /** A name is its own last element. */
  lemma BaseOfName(name: string)
    requires name != "" && '/' !in name
    ensures Base(name) == name
  {
    assert name[|name| - 1] in name;
    LastIndexIs(name, '/', -1);
  }

  /** The extension: from the last dot on, or nothing. For names without slashes. */
  function Ext(name: string): (e: string)
    ensures |e| <= |name| && e == name[|name| - |e|..]
  {
    var i := LastIndexOf(name, '.');
    if i < 0 then "" else name[i..]
  }

  /** A name that ends in an extension has that extension. */
  lemma ExtOfJoined(stem: string, ext: string)
    requires ext == "" ==> '.' !in stem
    requires ext != "" ==> ext[0] == '.' && '.' !in ext[1..]
    ensures Ext(stem + ext) == ext
  {
    var s := stem + ext;
    if ext == "" {
      assert s == stem;
      LastIndexIs(s, '.', -1);
    } else {
      assert s[|stem|] == '.';
      assert forall k | |stem| < k < |s| :: s[k] == ext[1..][k - |stem| - 1];
      LastIndexIs(s, '.', |stem|);
    }
  }

  /** An extension starts with the name's last dot; without one the name has none. */
  lemma ExtShape(name: string)
    ensures Ext(name) == "" ==> '.' !in name
    ensures Ext(name) != "" ==> Ext(name)[0] == '.' && '.' !in Ext(name)[1..]
  {
    LastIndex(name, '.');
  }
}
