/** Object keys, the three parsers that read them back, and the bucket they name. */
module Storage {
  import opened Types
  import opened Strings
  import FileNames

  // ---------- building a key ----------

  function Digit(d: nat): char
    requires d < 10
  {
    '0' + (d as char)
  }

  /** Decimal notation. */
  function Decimal(n: nat): string {
    if n < 10 then [Digit(n)] else Decimal(n / 10) + [Digit(n % 10)]
  }

  predicate AllDigits(s: string) {
    forall i | 0 <= i < |s| :: '0' <= s[i] <= '9'
  }

  function Head(chat: string): string { "chat-" + chat }

  function Prefix(chat: string): string { Head(chat) + "/" }

  /** The last part of a key: the upload time in seconds, a dash and the cleaned name. */
  function Timed(timestamp: nat, name: string): string {
    Decimal(timestamp) + "-" + name
  }

  function BuildKey(chat: string, user: string, timestamp: nat, name: string): string {
    Head(chat) + "/" + user + "/" + Timed(timestamp, name)
  }

  // ---------- reading it back ----------

  /** A leading number and dash are taken for the timestamp. */
  function WithoutTimestamp(part: string): string {
    var i := IndexOf(part, '-');
    if i > 0 && AllDigits(part[..i]) then part[i + 1..] else part
  }

  function Spaces(name: string): string {
    ReplaceAll(name, '_', ' ')
  }

  lemma SpacesForUnderscores(name: string, i: nat)
    requires i < |name|
    ensures |Spaces(name)| == |name| && Spaces(name)[i] == if name[i] == '_' then ' ' else name[i]
  {
  }

  datatype Parsed = Parsed(user: string, name: string)

  /** The listing's reading. */
  function ReadListed(key: string): Parsed {
    var parts := Split(key, '/');
    if |parts| >= 3 then Parsed(parts[1], WithoutTimestamp(Last(parts)))
    else if |parts| == 2 then Parsed(parts[1], key)
    else Parsed("unknown", key)
  }

  /** The reading of a single file's information. */
  function ReadInfo(key: string): Parsed {
    var parts := Split(key, '/');
    if |parts| >= 3 then Parsed(parts[1], Spaces(WithoutTimestamp(Last(parts))))
    else if |parts| == 2 then Parsed(parts[1], key)
    else Parsed("unknown", key)
  }

  /** The download's reading: only the name. */
  function ReadDownload(key: string): string {
    Spaces(WithoutTimestamp(Base(key)))
  }

  // ---------- round trip ----------

  lemma {:induction false} DecimalIsDigits(n: nat)
    ensures Decimal(n) != "" && AllDigits(Decimal(n))
  {
    if n >= 10 {
      DecimalIsDigits(n / 10);
    }
  }

  function Value(s: string): nat {
    if s == "" || !('0' <= s[|s| - 1] <= '9') then 0
    else Value(s[..|s| - 1]) * 10 + (s[|s| - 1] - '0') as nat
  }

  lemma {:induction false} DecimalRoundTrip(n: nat)
    ensures Value(Decimal(n)) == n
  {
    if n >= 10 {
      DecimalRoundTrip(n / 10);
      assert Decimal(n)[..|Decimal(n)| - 1] == Decimal(n / 10);
    } else {
      assert Decimal(n)[..0] == "";
    }
  }

  lemma DigitsHaveNone(n: nat, c: char)
    requires !('0' <= c <= '9')
    ensures c !in Decimal(n)
  {
    DecimalIsDigits(n);
  }

  /** The last part of a built key loses exactly its timestamp, whatever the name looks like. */
  lemma TimestampIsRemoved(timestamp: nat, name: string)
    ensures WithoutTimestamp(Timed(timestamp, name)) == name
    ensures IndexOf(Timed(timestamp, name), '-') == |Decimal(timestamp)|
  {
    DigitsHaveNone(timestamp, '-');
    DecimalIsDigits(timestamp);
    IndexAfterPrefix(Decimal(timestamp), '-', name);
    var part := Timed(timestamp, name);
    assert part == Decimal(timestamp) + ['-'] + name;
    assert part[..|Decimal(timestamp)|] == Decimal(timestamp);
    assert part[|Decimal(timestamp)| + 1..] == name;
  }

  /** Nothing else is cut off: only a dash after one or more digits, and nothing but digits, ends a timestamp. */
  lemma OnlyTimestampsAreRemoved(d: string, name: string)
    requires '-' !in d
    ensures WithoutTimestamp(d) == d
    ensures WithoutTimestamp(d + "-" + name)
         == if d != "" && forall i | 0 <= i < |d| :: d[i] in "0123456789" then name else d + "-" + name
  {
    FirstIndex(d, '-');
    IndexAfterPrefix(d, '-', name);
    var part := d + ['-'] + name;
    assert d + "-" + name == part && part[..|d|] == d && part[|d| + 1..] == name;
    assert forall c: char :: '0' <= c <= '9' <==> c in "0123456789";
  }

  lemma HeadNamesChat(chat: string, other: string)
    ensures '/' in Head(chat) <==> '/' in chat
    ensures Head(chat) == Head(other) <==> chat == other
  {
    assert Head(chat)[5..] == chat && Head(other)[5..] == other;
    assert forall i | 0 <= i < 5 :: Head(chat)[i] != '/';
  }

  lemma Regroup(a: string, b: string, c: string, d: string)
    ensures a + b + c + d == a + (b + c + d)
  {
  }

  lemma SplitThree(a: string, b: string, c: string, slash: char)
    requires slash !in a && slash !in b && slash !in c
    ensures Split(a + [slash] + b + [slash] + c, slash) == [a, b, c]
  {
    Regroup(a + [slash], b, [slash], c);
    SplitFirst(a, slash, b + [slash] + c);
    SplitFirst(b, slash, c);
    SplitIsWholeIff(c, slash);
  }

  lemma PartsOfKey(chat: string, user: string, timestamp: nat, name: string)
    requires '/' !in chat && '/' !in user && '/' !in name
    ensures Split(BuildKey(chat, user, timestamp, name), '/') == [Head(chat), user, Timed(timestamp, name)]
  {
    DigitsHaveNone(timestamp, '/');
    HeadNamesChat(chat, chat);
    SplitThree(Head(chat), user, Timed(timestamp, name), '/');
  }

  /** The download cuts the last part off the key, unless the key ends in a slash. */
  lemma BaseOfKey(key: string)
    requires key != "" && key[|key| - 1] != '/'
    ensures Base(key) == Last(Split(key, '/'))
  {
    LastPiece(key, '/');
    LastIsEmptyIff(key);
  }

  /**
   The three readings of any key: the user is always the same, the information shows the listing's name
   with spaces for underscores when the key has three parts and the name as it is otherwise, and the
   download agrees with the information unless the key ends in a slash, where the listing has no name.
   */
  lemma {:induction false} ReadersAgree(key: string)
    ensures ReadInfo(key).user == ReadListed(key).user
    ensures ReadInfo(key).name == (if |Split(key, '/')| >= 3 then Spaces(ReadListed(key).name) else ReadListed(key).name)
    ensures |Split(key, '/')| >= 3 && key[|key| - 1] != '/' ==> ReadDownload(key) == ReadInfo(key).name
    ensures |Split(key, '/')| >= 3 && key[|key| - 1] == '/' ==> |ReadListed(key).name| == 0
  {
    if |Split(key, '/')| >= 3 {
      if key[|key| - 1] == '/' {
        SlashLeavesNoName(key);
      } else {
        BaseOfKey(key);
      }
    }
  }

  lemma {:induction false} SlashLeavesNoName(key: string)
    requires key != "" && key[|key| - 1] == '/'
    ensures |WithoutTimestamp(Last(Split(key, '/')))| == 0
  {
    LastPiece(key, '/');
    LastIsEmptyIff(key);
  }

  /**
   Reading a built key gives back the user and the name, even when the name itself has dashes or starts
   with digits.
   */
  lemma {:induction false} KeyRoundTrip(chat: string, user: string, timestamp: nat, name: string)
    requires '/' !in chat && '/' !in user && '/' !in name
    ensures ReadListed(BuildKey(chat, user, timestamp, name)) == Parsed(user, name)
  {
    PartsOfKey(chat, user, timestamp, name);
    TimestampIsRemoved(timestamp, name);
  }

  /** The information and the download show the same name with spaces for underscores. */
  lemma {:induction false} KeyShownWithSpaces(chat: string, user: string, timestamp: nat, name: string)
    requires '/' !in chat && '/' !in user && '/' !in name
    ensures ReadInfo(BuildKey(chat, user, timestamp, name)) == Parsed(user, Spaces(name))
    ensures ReadDownload(BuildKey(chat, user, timestamp, name)) == Spaces(name)
  {
    KeyRoundTrip(chat, user, timestamp, name);
    PartsOfKey(chat, user, timestamp, name);
    var key, last := BuildKey(chat, user, timestamp, name), Timed(timestamp, name);
    DigitsHaveNone(timestamp, '/');
    assert key[|key| - 1] == last[|last| - 1] && last[|last| - 1] in last;
    ReadersAgree(key);
  }

  /** How the listing reads keys of one part, of two parts and of more, whoever made them. */
  lemma {:induction false} AnyKeyIsRead(a: string, b: string, rest: string)
    requires '/' !in a && '/' !in b
    ensures ReadListed(a) == Parsed("unknown", a)
    ensures ReadListed(a + "/" + b) == Parsed(b, a + "/" + b)
    ensures ReadListed(a + "/" + b + "/" + rest) == Parsed(b, WithoutTimestamp(AfterLast(rest, '/')))
  {
    SplitIsWholeIff(a, '/');
    SplitIsWholeIff(b, '/');
    SplitFirst(a, '/', b);
    assert a + "/" + b == a + ['/'] + b;
    Regroup(a + "/", b, "/", rest);
    SplitFirst(a, '/', b + ['/'] + rest);
    SplitFirst(b, '/', rest);
    LastPiece(rest, '/');
    assert a + "/" + b + "/" + rest == a + ['/'] + (b + ['/'] + rest);
    LastOfCons([b] + Split(rest, '/'), b, Split(rest, '/'));
    LastOfCons([a] + ([b] + Split(rest, '/')), a, [b] + Split(rest, '/'));
  }

  lemma TimedIsInjective(timestamp: nat, name: string, timestamp': nat, name': string)
    requires Timed(timestamp, name) == Timed(timestamp', name')
    ensures timestamp == timestamp' && name == name'
  {
    TimestampIsRemoved(timestamp, name);
    TimestampIsRemoved(timestamp', name');
    assert Timed(timestamp, name)[..|Decimal(timestamp)|] == Decimal(timestamp);
    assert Timed(timestamp', name')[..|Decimal(timestamp')|] == Decimal(timestamp');
    DecimalRoundTrip(timestamp);
    DecimalRoundTrip(timestamp');
  }

  /** Different chats, users, times or names have different keys. */
  lemma {:induction false} KeysAreDistinct(chat: string, user: string, timestamp: nat, name: string,
                        chat': string, user': string, timestamp': nat, name': string)
    requires '/' !in chat && '/' !in user && '/' !in name
    requires '/' !in chat' && '/' !in user' && '/' !in name'
    requires BuildKey(chat, user, timestamp, name) == BuildKey(chat', user', timestamp', name')
    ensures chat == chat' && user == user' && timestamp == timestamp' && name == name'
  {
    PartsOfKey(chat, user, timestamp, name);
    PartsOfKey(chat', user', timestamp', name');
    HeadNamesChat(chat, chat');
    TimedIsInjective(timestamp, name, timestamp', name');
  }

  /** For a chat without slashes the user is read back exactly when its name has no slash. */
  lemma {:induction false} UserReadBackIff(chat: string, user: string, timestamp: nat, name: string)
    requires '/' !in chat && '/' !in name
    ensures ReadListed(BuildKey(chat, user, timestamp, name)).user == user <==> '/' !in user
  {
    if '/' !in user {
      KeyRoundTrip(chat, user, timestamp, name);
    } else {
      var rest := user + "/" + Timed(timestamp, name);
      assert BuildKey(chat, user, timestamp, name) == Head(chat) + ['/'] + rest;
      HeadNamesChat(chat, chat);
      SplitFirst(Head(chat), '/', rest);
      PiecesOfSplit(rest, '/');
      assert |Split(rest, '/')| >= 2 && Split(rest, '/')[0] in Split(rest, '/') by {
        assert rest[|user|] == '/';
        SplitIsWholeIff(rest, '/');
      }
    }
  }

  // ---------- chats share no keys ----------

  /** The listing of a chat asks for the keys with its prefix. */
  predicate ListedIn(chat: string, key: string) {
    Prefix(chat) <= key
  }

  /** Two chats can list the same key exactly when one chat's prefix begins with the other's. */
  lemma ListingsMeetIff(a: string, b: string)
    ensures (exists key :: ListedIn(a, key) && ListedIn(b, key)) <==> (Prefix(a) <= Prefix(b) || Prefix(b) <= Prefix(a))
  {
    if key :| ListedIn(a, key) && ListedIn(b, key) {
      if |Prefix(a)| <= |Prefix(b)| {
        assert Prefix(a) == key[..|Prefix(a)|] == Prefix(b)[..|Prefix(a)|];
      } else {
        assert Prefix(b) == key[..|Prefix(b)|] == Prefix(a)[..|Prefix(b)|];
      }
    }
    if Prefix(a) <= Prefix(b) {
      assert ListedIn(a, Prefix(b)) && ListedIn(b, Prefix(b));
    } else if Prefix(b) <= Prefix(a) {
      assert ListedIn(a, Prefix(a)) && ListedIn(b, Prefix(a));
    }
  }

  lemma {:induction false} KeyOfChat(chat: string, key: string)
    requires ListedIn(chat, key)
    ensures |Split(key, '/')| >= 2
    ensures '/' !in chat ==> Split(key, '/')[0] == Head(chat)
  {
    assert key[|Prefix(chat)| - 1] == '/';
    SplitIsWholeIff(key, '/');
    if '/' !in chat {
      assert key == Head(chat) + ['/'] + key[|Prefix(chat)|..];
      HeadNamesChat(chat, chat);
      SplitFirst(Head(chat), '/', key[|Prefix(chat)|..]);
    }
  }

  /** So the listings of different chats without slashes are disjoint: the key's first part names the chat. */
  lemma {:induction false} ListingsAreDisjoint(a: string, b: string, key: string)
    requires '/' !in a && '/' !in b && ListedIn(a, key)
    ensures ListedIn(b, key) <==> a == b
  {
    KeyOfChat(a, key);
    if ListedIn(b, key) {
      KeyOfChat(b, key);
      HeadNamesChat(a, b);
    }
  }

  // ---------- the bucket ----------

  datatype FileInfo = FileInfo(name: string, size: nat, uploaderID: string, chatID: string, key: string)

  datatype Verdict = Deleted | Unauthorized | Incomplete | WrongChat | NotFound | BadKey | NotOwner

  type Objects = map<string, nat>

  function ListedInfo(objects: Objects, chat: string, key: string): FileInfo
    requires key in objects
  {
    FileInfo(ReadListed(key).name, objects[key], ReadListed(key).user, chat, key)
  }

  /** Every key with the chat's prefix once, and no other. */
  ghost predicate Enumerates(listed: seq<string>, objects: Objects, chat: string) {
    && (forall k :: k in listed <==> k in objects && ListedIn(chat, k))
    && forall i, j | 0 <= i < j < |listed| :: listed[i] != listed[j]
  }

  /** Every object of the chat has one entry, and nothing else has. */
  ghost predicate IsListing(files: seq<FileInfo>, objects: Objects, chat: string) {
    && (forall f :: f in files <==> IsEntry(f, objects, chat))
    && forall i, j | 0 <= i < j < |files| :: files[i] != files[j]
  }

  predicate IsEntry(f: FileInfo, objects: Objects, chat: string) {
    f.key in objects && ListedIn(chat, f.key) && f == ListedInfo(objects, chat, f.key)
  }

  lemma ListingOf(listed: seq<string>, objects: Objects, chat: string, files: seq<FileInfo>)
    requires Enumerates(listed, objects, chat) && |files| == |listed|
    requires forall i | 0 <= i < |listed| :: listed[i] in objects && files[i] == ListedInfo(objects, chat, listed[i])
    ensures IsListing(files, objects, chat)
  {
    forall f ensures f in files <==> IsEntry(f, objects, chat) {
      if f in files {
        var i :| 0 <= i < |files| && files[i] == f;
        assert listed[i] in listed;
      }
      if IsEntry(f, objects, chat) {
        var i :| 0 <= i < |listed| && listed[i] == f.key;
        assert files[i] == f;
      }
    }
  }

  /** The storage layer's checks, in order. */
  function Judge(objects: Objects, chat: string, key: string, username: string): Verdict {
    if !ListedIn(chat, key) then WrongChat
    else if key !in objects then NotFound
    else if |Split(key, '/')| < 2 then BadKey
    else if Split(key, '/')[1] != username then NotOwner
    else Deleted
  }

  /** The handler's checks before it calls the storage layer. Deleted stands for going on. */
  function Screen(chat: string, key: string, username: string): Verdict {
    if username == "" then Unauthorized
    else if chat == "" || key == "" then Incomplete
    else if !ListedIn(chat, key) then WrongChat
    else if |Split(key, '/')| < 2 then BadKey
    else if Split(key, '/')[1] != username then NotOwner
    else Deleted
  }

  /** Keys the storage layer is asked for after the handler's checks can only be missing. */
  lemma ScreenedIsOnlyMissing(objects: Objects, chat: string, key: string, username: string)
    requires Screen(chat, key, username) == Deleted
    ensures Judge(objects, chat, key, username) == if key in objects then Deleted else NotFound
  {
  }

  /** Of the refusals, the one for malformed keys never happens: the prefix has a slash in it. */
  lemma NeverBadKey(objects: Objects, chat: string, key: string, username: string)
    ensures Judge(objects, chat, key, username) != BadKey && Screen(chat, key, username) != BadKey
  {
    if ListedIn(chat, key) {
      KeyOfChat(chat, key);
    }
  }

  /** Whoever asks, the file of a user without slashes in a chat without slashes goes only for that user. */
  lemma OnlyTheUploaderDeletes(objects: Objects, chat: string, user: string, timestamp: nat, name: string, asking: string)
    requires '/' !in chat && '/' !in user && '/' !in name && BuildKey(chat, user, timestamp, name) in objects
    ensures Judge(objects, chat, BuildKey(chat, user, timestamp, name), asking) == if asking == user then Deleted else NotOwner
  {
    var key := BuildKey(chat, user, timestamp, name);
    assert ListedIn(chat, key);
    PartsOfKey(chat, user, timestamp, name);
  }

  /**
   Every outcome of the storage layer, spelled out. Exactly the owner's object in the chat's own part of the
   bucket is deleted; a key elsewhere is refused before it is looked for.
   */
  lemma VerdictsAre(objects: Objects, chat: string, key: string, username: string)
    ensures Judge(objects, chat, key, username) == WrongChat <==> !("chat-" + chat + "/" <= key)
    ensures Judge(objects, chat, key, username) == NotFound <==> "chat-" + chat + "/" <= key && key !in objects
    ensures Judge(objects, chat, key, username) == Deleted
       <==> "chat-" + chat + "/" <= key && key in objects && |Split(key, '/')| >= 2 && Split(key, '/')[1] == username
    ensures Judge(objects, chat, key, username) == NotOwner
       <==> "chat-" + chat + "/" <= key && key in objects && |Split(key, '/')| >= 2 && Split(key, '/')[1] != username
  {
    if ListedIn(chat, key) {
      KeyOfChat(chat, key);
    }
  }

  /** And of the handler's own checks: first who asks, then what is missing, then whose the key is. */
  lemma ScreeningIs(chat: string, key: string, username: string)
    ensures Screen(chat, key, username) == Unauthorized <==> username == ""
    ensures Screen(chat, key, username) == Incomplete <==> username != "" && (chat == "" || key == "")
    ensures Screen(chat, key, username) == WrongChat
       <==> username != "" && chat != "" && key != "" && !("chat-" + chat + "/" <= key)
    ensures Screen(chat, key, username) == Deleted
       <==> username != "" && chat != "" && "chat-" + chat + "/" <= key
            && |Split(key, '/')| >= 2 && Split(key, '/')[1] == username
    ensures Screen(chat, key, username) == NotOwner
       <==> username != "" && chat != "" && "chat-" + chat + "/" <= key
            && |Split(key, '/')| >= 2 && Split(key, '/')[1] != username
  {
    if ListedIn(chat, key) {
      KeyOfChat(chat, key);
    }
  }

  class Bucket {
    var objects: Objects

    constructor ()
      ensures objects == map[]
    {
      objects := map[];
    }

    /** The key of an upload; the object appears when the client has sent it. */
    method GenerateUploadKey(chat: string, user: string, filename: string, timestamp: nat) returns (key: string)
      ensures key == BuildKey(chat, user, timestamp, FileNames.Clean(Base(filename), FileNames.StorageUnsafe))
      ensures "chat-" + chat + "/" + user + "/" <= key
    {
      var safeFilename := FileNames.CleanForStorage(filename);
      key := "chat-" + chat + "/" + user + "/" + Decimal(timestamp) + "-" + safeFilename;
      Regroup(Head(chat) + "/" + user + "/", Decimal(timestamp), "-", safeFilename);
    }

    /** The name in a listing, parsed step by step. */
    method ParseListed(key: string) returns (userID: string, filename: string)
      ensures Parsed(userID, filename) == ReadListed(key)
    {
      var parts := Split(key, '/');
      if |parts| >= 2 {
        userID := parts[1];
        if |parts| >= 3 {
          var filenamePart := Last(parts);
          var idx := IndexOf(filenamePart, '-');
          if idx > 0 {
            var potentialTimestamp := filenamePart[..idx];
            if AllDigits(potentialTimestamp) {
              filename := filenamePart[idx + 1..];
            } else {
              filename := filenamePart;
            }
          } else {
            filename := filenamePart;
          }
        } else {
          filename := key;
        }
      } else {
        userID, filename := "unknown", key;
      }
    }

    /** listed is what the object store enumerates for the chat's prefix, in its own order. */
    method ListFiles(chat: string, listed: seq<string>) returns (files: seq<FileInfo>)
      requires Enumerates(listed, objects, chat)
      ensures IsListing(files, objects, chat)
      ensures |files| == |listed|
      ensures forall i | 0 <= i < |listed| ::
                listed[i] in objects
                && files[i] == FileInfo(ReadListed(listed[i]).name, objects[listed[i]], ReadListed(listed[i]).user, chat, listed[i])
    {
      files := [];
      for n := 0 to |listed|
        invariant |files| == n
        invariant forall i | 0 <= i < n :: listed[i] in objects && files[i] == ListedInfo(objects, chat, listed[i])
      {
        assert listed[n] in listed;
        var userID, filename := ParseListed(listed[n]);
        files := files + [FileInfo(filename, objects[listed[n]], userID, chat, listed[n])];
      }
      ListingOf(listed, objects, chat, files);
    }

    method GetFileInfo(chat: string, key: string) returns (r: Option<FileInfo>)
      ensures r == if key in objects then Some(FileInfo(ReadInfo(key).name, objects[key], ReadInfo(key).user, chat, key)) else None
    {
      if key !in objects {
        return None;
      }
      var parts := Split(key, '/');
      var userID, filename := "unknown", key;
      if |parts| >= 2 {
        userID := parts[1];
        if |parts| >= 3 {
          var part := Last(parts);
          var idx := IndexOf(part, '-');
          if idx > 0 && AllDigits(part[..idx]) {
            filename := part[idx + 1..];
          } else {
            filename := part;
          }
          filename := ReplaceAll(filename, '_', ' ');
        }
      }
      return Some(FileInfo(filename, objects[key], userID, chat, key));
    }

    /** The name under which a download is offered. */
    method DownloadName(key: string) returns (filename: string)
      ensures filename == ReadDownload(key)
    {
      filename := Base(key);
      var idx := IndexOf(filename, '-');
      if idx > 0 {
        if AllDigits(filename[..idx]) {
          filename := filename[idx + 1..];
        }
      }
      filename := ReplaceAll(filename, '_', ' ');
    }

    method DeleteFile(chat: string, key: string, username: string) returns (r: Verdict)
      modifies this
      ensures r == Judge(old(objects), chat, key, username)
      ensures objects == if r == Deleted then old(objects) - {key} else old(objects)
      ensures r == Deleted ==> key in old(objects) && |objects| == |old(objects)| - 1 && ReadListed(key).user == username
    {
      if !ListedIn(chat, key) {
        return WrongChat;
      }
      if key !in objects {
        return NotFound;
      }
      var parts := Split(key, '/');
      if |parts| < 2 {
        return BadKey;
      }
      if parts[1] != username {
        return NotOwner;
      }
      assert objects.Keys == (objects - {key}).Keys + {key};
      objects := objects - {key};
      return Deleted;
    }

    /** The handler: its own checks, then the storage layer's. */
    method HandleDelete(chat: string, key: string, username: string) returns (r: Verdict)
      modifies this
      ensures r == if Screen(chat, key, username) != Deleted then Screen(chat, key, username)
                   else if key in old(objects) then Deleted else NotFound
      ensures objects == if r == Deleted then old(objects) - {key} else old(objects)
    {
      if username == "" {
        return Unauthorized;
      }
      if chat == "" || key == "" {
        return Incomplete;
      }
      if !ListedIn(chat, key) {
        return WrongChat;
      }
      var parts := Split(key, '/');
      if |parts| < 2 {
        return BadKey;
      }
      if parts[1] != username {
        return NotOwner;
      }
      ScreenedIsOnlyMissing(objects, chat, key, username);
      r := DeleteFile(chat, key, username);
    }
  }

  /**
   A successful delete takes exactly one entry out of the listing of its chat, the one of the key, which
   shows the requester as the uploader, and leaves the listing of every other chat as it was, if the two
   chats have no slash in them.
   */
  lemma DeleteFrame(objects: Objects, chat: string, key: string, username: string,
                    other: string, before: seq<FileInfo>, after: seq<FileInfo>)
    requires Judge(objects, chat, key, username) == Deleted
    requires IsListing(before, objects, other) && IsListing(after, objects - {key}, other)
    ensures forall f :: f in after <==> f in before && f.key != key
    ensures other == chat ==>
              key in objects && ListedInfo(objects, chat, key) in before && ListedInfo(objects, chat, key).uploaderID == username
    ensures '/' !in chat && '/' !in other && other != chat ==> forall f :: f in after <==> f in before
  {
    KeyOfChat(chat, key);
    forall f ensures f in after <==> f in before && f.key != key {
      assert f in before <==> IsEntry(f, objects, other);
      assert f in after <==> IsEntry(f, objects - {key}, other);
    }
    if other == chat {
      assert IsEntry(ListedInfo(objects, chat, key), objects, chat);
    } else if '/' !in chat && '/' !in other {
      ListingsAreDisjoint(chat, other, key);
      forall f | f in before ensures f.key != key {
        assert IsEntry(f, objects, other);
      }
    }
  }

  /** What a listing shows of a built key: one entry, with the stored name, the uploader, the chat and the size. */
  lemma {:induction false} ListingShows(objects: Objects, chat: string, user: string, timestamp: nat, name: string,
                                        files: seq<FileInfo>) returns (i: nat)
    requires '/' !in chat && '/' !in user && '/' !in name
    requires BuildKey(chat, user, timestamp, name) in objects && IsListing(files, objects, chat)
    ensures i < |files| && files[i] == FileInfo(name, objects[BuildKey(chat, user, timestamp, name)], user, chat,
                                                BuildKey(chat, user, timestamp, name))
    ensures forall j | 0 <= j < |files| && files[j].key == BuildKey(chat, user, timestamp, name) :: j == i
  {
    var key := BuildKey(chat, user, timestamp, name);
    KeyRoundTrip(chat, user, timestamp, name);
    var f := FileInfo(name, objects[key], user, chat, key);
    assert IsEntry(f, objects, chat);
    i :| 0 <= i < |files| && files[i] == f;
    forall j | 0 <= j < |files| && files[j].key == key ensures j == i {
      assert files[j] in files && IsEntry(files[j], objects, chat);
    }
  }

  /**
   From the upload request to the listing: whatever file name was asked for, as long as it does not
   consist of slashes and the request does not panic, the listing has exactly one entry for the object, with
   the stored name, the uploader, the chat and the size the object has.
   */
  lemma {:induction false} UploadIsListedUnderItsName(objects: Objects, chat: string, user: string, timestamp: nat,
                                                      filename: string, stored: string, files: seq<FileInfo>) returns (i: nat)
    requires '/' !in chat && '/' !in user && '/' !in Base(filename)
    requires FileNames.StoredName(filename) == Some(stored)
    requires BuildKey(chat, user, timestamp, stored) in objects && IsListing(files, objects, chat)
    ensures i < |files| && files[i] == FileInfo(stored, objects[BuildKey(chat, user, timestamp, stored)], user, chat,
                                                BuildKey(chat, user, timestamp, stored))
    ensures forall j | 0 <= j < |files| && files[j].key == BuildKey(chat, user, timestamp, stored) :: j == i
  {
    FileNames.StoredNameIsClean(filename, FileNames.UploadName(filename).value);
    i := ListingShows(objects, chat, user, timestamp, stored, files);
  }
}
