/**
 How an uploaded file gets the name under which it is stored. Names are byte strings here, one char for
 each byte.
 */
module FileNames {
  import opened Types
  import opened Strings
  import Utf8

  const NAME_LIMIT: nat := 200

  /** The characters the upload handler replaces, and those the storage layer replaces after it. */
  predicate UploadUnsafe(c: char) {
    c == '\'' || c == '\"' || c == '`' || c == '$' || c == '&' || c == '|' || c == ';'
    || c == '(' || c == ')' || c == '[' || c == ']' || c == '{' || c == '}'
  }

  predicate StorageUnsafe(c: char) {
    c == '\'' || c == '\"' || c == '`' || c == ' ' || c == '?'
    || c == '*' || c == ':' || c == '<' || c == '>' || c == '|'
  }

  predicate Unsafe(c: char) {
    UploadUnsafe(c) || StorageUnsafe(c)
  }

  function Clean(s: string, unsafe: char -> bool): (r: string)
    ensures |r| == |s| && forall i | 0 <= i < |s| :: r[i] == if unsafe(s[i]) then '_' else s[i]
  {
    seq(|s|, i requires 0 <= i < |s| => if unsafe(s[i]) then '_' else s[i])
  }

  lemma CleanTwice(s: string)
    ensures Clean(Clean(s, UploadUnsafe), StorageUnsafe) == Clean(s, Unsafe)
  {
  }

  /** Cleaning keeps slashes and dots where they are, as none of the sets has them. */
  lemma CleanKeeps(s: string, unsafe: char -> bool, c: char)
    requires !unsafe(c) && c != '_'
    ensures c in Clean(s, unsafe) <==> c in s
  {
    var r := Clean(s, unsafe);
    if c in s {
      var i :| 0 <= i < |s| && s[i] == c;
      assert r[i] == c;
    }
  }

  /** The name cut to the limit, keeping the extension. None when the extension alone is too long. */
  function Truncate(name: string): Option<string> {
    if |name| <= NAME_LIMIT then Some(name)
    else if |Ext(name)| > NAME_LIMIT then None
    else Some(name[..NAME_LIMIT - |Ext(name)|] + Ext(name))
  }

  /** The name the handler passes to storage; None where the slice expression panics. */
  function UploadName(filename: string): Option<string> {
    Truncate(Clean(Base(filename), UploadUnsafe))
  }

  /** The name that goes into the object key. */
  function StoredName(filename: string): Option<string> {
    match UploadName(filename)
    case None => None
    case Some(name) => Some(Clean(Base(name), StorageUnsafe))
  }

  // ---------- the chains of replacements ----------

  method CleanForUpload(raw: string) returns (filename: string)
    ensures filename == Clean(Base(raw), UploadUnsafe)
  {
    filename := Base(raw);
    filename := ReplaceAll(filename, '\'', '_');
    filename := ReplaceAll(filename, '\"', '_');
    filename := ReplaceAll(filename, '`', '_');
    filename := ReplaceAll(filename, '$', '_');
    filename := ReplaceAll(filename, '&', '_');
    filename := ReplaceAll(filename, '|', '_');
    filename := ReplaceAll(filename, ';', '_');
    filename := ReplaceAll(filename, '(', '_');
    filename := ReplaceAll(filename, ')', '_');
    filename := ReplaceAll(filename, '[', '_');
    filename := ReplaceAll(filename, ']', '_');
    filename := ReplaceAll(filename, '{', '_');
    filename := ReplaceAll(filename, '}', '_');
  }

  method CleanForStorage(raw: string) returns (safeFilename: string)
    ensures safeFilename == Clean(Base(raw), StorageUnsafe)
  {
    safeFilename := Base(raw);
    safeFilename := ReplaceAll(safeFilename, '\'', '_');
    safeFilename := ReplaceAll(safeFilename, '\"', '_');
    safeFilename := ReplaceAll(safeFilename, '`', '_');
    safeFilename := ReplaceAll(safeFilename, ' ', '_');
    safeFilename := ReplaceAll(safeFilename, '?', '_');
    safeFilename := ReplaceAll(safeFilename, '*', '_');
    safeFilename := ReplaceAll(safeFilename, ':', '_');
    safeFilename := ReplaceAll(safeFilename, '<', '_');
    safeFilename := ReplaceAll(safeFilename, '>', '_');
    safeFilename := ReplaceAll(safeFilename, '|', '_');
  }

  method LimitLength(cleaned: string) returns (result: Option<string>)
    ensures result == Truncate(cleaned)
  {
    var filename := cleaned;
    if |filename| > 200 {
      var ext := Ext(filename);
      if 200 - |ext| < 0 {
        return None;
      }
      var name := filename[..200 - |ext|];
      filename := name + ext;
    }
    return Some(filename);
  }

  /** The name part of an upload request. The result is None where the original panics. */
  method RequestUpload(chat: string, raw: string) returns (refused: bool, result: Option<string>)
    ensures refused <==> chat == "" || raw == ""
    ensures !refused ==> result == UploadName(raw)
  {
    refused, result := chat == "" || raw == "", None;
    if refused {
      return;
    }
    var filename := CleanForUpload(raw);
    result := LimitLength(filename);
  }

  // ---------- what the name is ----------

  /** The request panics exactly when the cleaned name and its extension are both over the limit. */
  lemma UploadPanicsIff(filename: string)
    ensures UploadName(filename).None? <==> |Ext(Clean(Base(filename), UploadUnsafe))| > NAME_LIMIT
  {
  }

  lemma UploadUnsafeAre(c: char)
    ensures UploadUnsafe(c) <==> c in "'\"`$&|;()[]{}"
  {
  }

  lemma UnsafeAre(c: char)
    ensures Unsafe(c) <==> c in "'\"`$&|;()[]{} ?*:<>"
  {
  }

  lemma ShortName(dir: string, name: string)
    requires name != "" && '/' !in name && |name| <= 200
    ensures UploadName(dir + "/" + name) == UploadName(name) == Some(Clean(name, UploadUnsafe))
    ensures StoredName(dir + "/" + name) == Some(Clean(name, Unsafe))
  {
    BaseOfPath(dir, name, "");
    assert dir + "/" + name + "" == dir + "/" + name && name + "" == name;
    CleanKeeps(name, UploadUnsafe, '/');
    BaseOfName(Clean(name, UploadUnsafe));
    CleanTwice(name);
  }

  /**
   The name of an upload, spelled out: the last element of the path asked for, with an underscore for each
   of thirteen characters, as long as it has at most 200 bytes. In the object key six more are replaced.
   */
  lemma NameIsSpelled(dir: string, name: string, i: nat)
    requires name != "" && '/' !in name && |name| <= 200 && i < |name|
    ensures UploadName(dir + "/" + name).Some? && StoredName(dir + "/" + name).Some?
    ensures var uploaded, stored := UploadName(dir + "/" + name).value, StoredName(dir + "/" + name).value;
            && |uploaded| == |stored| == |name|
            && uploaded[i] == (if name[i] in "'\"`$&|;()[]{}" then '_' else name[i])
            && stored[i] == (if name[i] in "'\"`$&|;()[]{} ?*:<>" then '_' else name[i])
  {
    ShortName(dir, name);
    UploadUnsafeAre(name[i]);
    UnsafeAre(name[i]);
  }

  /** A dot and two hundred letters. */
  const LONG_EXTENSION: string := ['.'] + seq(200, _ => 'a')

  lemma DotAndLettersPanic(name: string)
    requires |name| == 201 && name[0] == '.' && forall i | 1 <= i < 201 :: name[i] == 'a'
    ensures UploadName(name).None?
  {
    assert '/' !in name;
    BaseOfName(name);
    var cleaned := Clean(name, UploadUnsafe);
    assert forall i | 0 <= i < 201 :: cleaned[i] == name[i];
    assert cleaned == name;
    LastIndexIs(name, '.', 0);
  }

  /** A request with that name panics. */
  lemma LongExtensionPanics()
    ensures UploadName(LONG_EXTENSION) == None
  {
    DotAndLettersPanic(LONG_EXTENSION);
  }

  /**
   A name over the limit is cut to exactly 200 bytes: a prefix of its stem followed by the same
   extension.
   */
  lemma {:induction false} TruncationKeepsExtension(name: string)
    requires |name| > NAME_LIMIT && Truncate(name).Some?
    ensures var r, ext := Truncate(name).value, Ext(name);
            && |r| == NAME_LIMIT && Ext(r) == ext
            && r == name[..|name| - |ext|][..NAME_LIMIT - |ext|] + ext
  {
    ExtShape(name);
    var ext := Ext(name);
    KeptStem(name, ext, NAME_LIMIT - |ext|);
    assert Truncate(name).value == name[..NAME_LIMIT - |ext|] + ext;
  }

  /** A well-formed name stays well-formed exactly if the cut does not fall inside a character. */
  lemma TruncatedIsWellFormedIff(name: string)
    requires Utf8.WellFormed(name) && |name| > NAME_LIMIT && Truncate(name).Some?
    ensures Utf8.WellFormed(Truncate(name).value) <==> !Utf8.Continues(name[NAME_LIMIT - |Ext(name)|])
  {
    var ext := Ext(name);
    ExtShape(name);
    EndIsWellFormed(name, ext);
    var n := NAME_LIMIT - |ext|;
    assert Truncate(name).value == name[..n] + ext;
    CutBeforeExtension(name, ext, n);
  }

  lemma EndIsWellFormed(name: string, ext: string)
    requires Utf8.WellFormed(name) && |ext| <= |name| && ext == name[|name| - |ext|..]
    requires ext != "" ==> ext[0] == '.'
    ensures Utf8.WellFormed(ext)
  {
    if ext != "" {
      assert name[|name| - |ext|] == ext[0];
      Utf8.SuffixIsWellFormed(name, |name| - |ext|);
    }
  }

  lemma CutBeforeExtension(name: string, ext: string, n: nat)
    requires Utf8.WellFormed(name) && Utf8.WellFormed(ext) && n < |name|
    requires ext != "" ==> ext[0] == '.'
    ensures Utf8.WellFormed(name[..n] + ext) <==> !Utf8.Continues(name[n])
  {
    Utf8.PrefixIff(name, n);
    if ext == "" {
      assert name[..n] + ext == name[..n];
    } else {
      Utf8.AppendIff(name[..n], ext);
    }
  }

  /** A prefix of the stem, followed by the extension, has that extension. */
  lemma KeptStem(name: string, ext: string, n: nat)
    requires |ext| <= |name| && ext == name[|name| - |ext|..] && n <= |name| - |ext|
    requires ext == "" ==> '.' !in name
    requires ext != "" ==> ext[0] == '.' && '.' !in ext[1..]
    ensures Ext(name[..n] + ext) == ext && name[..n] == name[..|name| - |ext|][..n]
  {
    var kept := name[..n];
    forall i | 0 <= i < n ensures kept[i] in name {
      assert kept[i] == name[i];
    }
    ExtOfJoined(kept, ext);
  }

  lemma TruncationOnlyDrops(name: string)
    requires Truncate(name).Some?
    ensures forall c | c in Truncate(name).value :: c in name
  {
    if |name| > NAME_LIMIT {
      var ext := Ext(name);
      forall c | c in name[..NAME_LIMIT - |ext|] ensures c in name {
      }
      forall c | c in name[|name| - |ext|..] ensures c in name {
      }
    }
  }

  /** Truncation makes no slash and no empty name. */
  lemma TruncationKeepsShape(name: string)
    requires Truncate(name).Some? && name != "" && '/' !in name
    ensures Truncate(name).value != "" && '/' !in Truncate(name).value && |Truncate(name).value| <= NAME_LIMIT
  {
    TruncationOnlyDrops(name);
  }

  /** A truncated clean name is still clean. */
  lemma TruncationStaysClean(s: string, unsafe: char -> bool)
    requires !unsafe('_') && Truncate(Clean(s, unsafe)).Some?
    ensures var r := Truncate(Clean(s, unsafe)).value; Clean(r, unsafe) == r
  {
    var r := Truncate(Clean(s, unsafe)).value;
    TruncationOnlyDrops(Clean(s, unsafe));
    forall i | 0 <= i < |r| ensures !unsafe(r[i]) {
      assert r[i] in Clean(s, unsafe);
    }
  }

  /**
   For a request that does not consist of slashes only and does not panic, the name is not empty, has
   at most 200 bytes, no slash and nothing left to clean.
   */
  lemma {:induction false} UploadNameShape(filename: string, name: string)
    requires UploadName(filename) == Some(name) && '/' !in Base(filename)
    ensures name != "" && '/' !in name && |name| <= NAME_LIMIT
    ensures Clean(name, UploadUnsafe) == name
  {
    var base := Base(filename);
    BaseHasSlashIff(filename);
    CleanKeeps(base, UploadUnsafe, '/');
    TruncationKeepsShape(Clean(base, UploadUnsafe));
    TruncationStaysClean(base, UploadUnsafe);
  }

  /** Sending the name through the request again changes nothing. */
  lemma {:induction false} UploadNameIsStable(filename: string, name: string)
    requires UploadName(filename) == Some(name) && '/' !in Base(filename)
    ensures UploadName(name) == Some(name)
  {
    UploadNameShape(filename, name);
    BaseOfName(name);
  }

  /** On a name without slashes the second pass keeps the length and makes no slash. */
  lemma SecondPassKeepsShape(name: string)
    requires name != "" && '/' !in name
    ensures Clean(Base(name), StorageUnsafe) == Clean(name, StorageUnsafe)
    ensures '/' !in Clean(name, StorageUnsafe) && |Clean(name, StorageUnsafe)| == |name|
  {
    BaseOfName(name);
    CleanKeeps(name, StorageUnsafe, '/');
  }

  /** On a name the first chain left, both chains are one replacement, and no unsafe character is left. */
  lemma ChainsAreOneMap(name: string)
    requires Clean(name, UploadUnsafe) == name
    ensures Clean(name, StorageUnsafe) == Clean(name, Unsafe)
    ensures forall c | c in Clean(name, StorageUnsafe) :: !Unsafe(c)
  {
    CleanTwice(name);
    forall i | 0 <= i < |name| ensures !Unsafe(Clean(name, Unsafe)[i]) {
    }
  }

  /** So the name in the object key is the uploaded name with all unsafe characters replaced. */
  lemma {:induction false} StoredNameIsClean(filename: string, name: string)
    requires UploadName(filename) == Some(name) && '/' !in Base(filename)
    ensures StoredName(filename) == Some(Clean(name, Unsafe))
    ensures |Clean(name, Unsafe)| == |name| && '/' !in Clean(name, Unsafe)
  {
    UploadNameShape(filename, name);
    SecondPassKeepsShape(name);
    ChainsAreOneMap(name);
  }
}
