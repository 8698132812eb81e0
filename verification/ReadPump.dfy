/**
 How a client's frames become messages and edit requests. Texts are byte strings; those that come out of
 JSON are well-formed UTF-8.
 */
module ReadPumps {
  import opened Types
  import opened Utf8
  import opened Wire
  import opened CodePoints

  datatype Frame =
    | Ignored
    | EditRequest(messageID: nat, newText: string, username: string)
    | ChatMessage(message: Message)

  const TEXT_LIMIT: nat := 10000

  /** Three dots and a Russian word in brackets. */
  const CUT_MARK: string :=
    ['.', '.', '.', ' ', '(', '\U{D0}', '\U{BE}', '\U{D0}', '\U{B1}', '\U{D1}', '\U{80}', '\U{D0}', '\U{B5}', '\U{D0}', '\U{B7}',
     '\U{D0}', '\U{B0}', '\U{D0}', '\U{BD}', '\U{D0}', '\U{BE}', ')']

  /** The cut may fall inside a character. */
  function Cut(s: string): string {
    if |s| > TEXT_LIMIT then s[..TEXT_LIMIT] + CUT_MARK else s
  }

  /** The same in characters. */
  const MARK_POINTS: seq<Scalar> := [0x2E, 0x2E, 0x2E, 0x20, 0x28, 0x43E, 0x431, 0x440, 0x435, 0x437, 0x430, 0x43D, 0x43E, 0x29]

  lemma FourSpelled(a: Scalar, b: Scalar, c: Scalar, d: Scalar, bytes: string)
    requires bytes == Encode(a) + Encode(b) + Encode(c) + Encode(d)
    ensures Encoded([a, b, c, d]) == bytes
  {
    EncodedTwo(a, b);
    EncodedTwo(c, d);
    EncodedSum([a, b], [c, d]);
    assert [a, b] + [c, d] == [a, b, c, d];
  }

  lemma MarkStarts()
    ensures Encoded([0x2E, 0x2E, 0x2E, 0x20]) == CUT_MARK[..4] && Encoded([0x28, 0x43E, 0x431, 0x440]) == CUT_MARK[4..11]
  {
    FourSpelled(0x2E, 0x2E, 0x2E, 0x20, CUT_MARK[..4]);
    FourSpelled(0x28, 0x43E, 0x431, 0x440, CUT_MARK[4..11]);
  }

  lemma MarkEnds()
    ensures Encoded([0x435, 0x437, 0x430, 0x43D]) == CUT_MARK[11..19] && Encoded([0x43E, 0x29]) == CUT_MARK[19..]
  {
    FourSpelled(0x435, 0x437, 0x430, 0x43D, CUT_MARK[11..19]);
    EncodedTwo(0x43E, 0x29);
  }

  /** The mark in bytes is the mark in characters. */
  lemma MarkIsSpelled()
    ensures Encoded(MARK_POINTS) == CUT_MARK
  {
    MarkStarts();
    MarkEnds();
    var a: seq<Scalar>, b: seq<Scalar> := [0x2E, 0x2E, 0x2E, 0x20], [0x28, 0x43E, 0x431, 0x440];
    var c: seq<Scalar>, d: seq<Scalar> := [0x435, 0x437, 0x430, 0x43D], [0x43E, 0x29];
    assert MARK_POINTS == a + b + (c + d);
    Joined(CUT_MARK, a, b, c, d);
  }

  lemma Joined(mark: string, a: seq<Scalar>, b: seq<Scalar>, c: seq<Scalar>, d: seq<Scalar>)
    requires |mark| == 22 && Encoded(a) == mark[..4] && Encoded(b) == mark[4..11]
    requires Encoded(c) == mark[11..19] && Encoded(d) == mark[19..]
    ensures Encoded(a + b + (c + d)) == mark
  {
    EncodedSum(a, b);
    EncodedSum(c, d);
    EncodedSum(a + b, c + d);
    FourSlices(mark);
  }

  lemma FourSlices(mark: string)
    requires |mark| == 22
    ensures mark[..4] + mark[4..11] + (mark[11..19] + mark[19..]) == mark
  {
  }

  lemma MarkIsWellFormed()
    ensures WellFormed(CUT_MARK)
  {
    MarkIsSpelled();
    EncodedIsWellFormed(MARK_POINTS);
  }

  // ---------- decoding into the structures the cascade uses ----------

  /** The fields of an object; null decodes as an object without fields, anything else fails. */
  function AsObject(j: Json): Option<map<string, Json>> {
    match j
    case JObject(f) => Some(f)
    case JNull => Some(map[])
    case _ => None
  }

  /** The string at the field, if the value decodes as a structure with that one string field. */
  function TextOf(j: Json, field: string): Option<string> {
    match AsObject(j)
    case None => None
    case Some(f) => StringField(f, field)
  }

  /** The type, if the value decodes as a structure with a type and arbitrary data. */
  function TypeOf(j: Json): Option<string> {
    TextOf(j, "type")
  }

  function AsString(j: Json): Option<string> {
    match j
    case JString(s) => Some(s)
    case JNull => Some("")
    case _ => None
  }

  function AsEdit(j: Json, username: string): Option<Frame> {
    match AsObject(j)
    case None => None
    case Some(f) =>
      var id, text := NumberField(f, "messageId"), StringField(f, "newText");
      if id.None? || text.None? || StringField(f, "username").None? then None
      else Some(EditRequest(id.value, text.value, username))
  }

  // ---------- what a frame means ----------

  /** The text of a chat frame: the string itself, the text field, or the data of a typed object. */
  function ChatText(j: Json): string {
    match j
    case JString(s) => s
    case JObject(f) =>
      if "text" in f && f["text"].JString? && f["text"].text != "" then f["text"].text
      else if "type" in f && (f["type"] == JString("chat") || f["type"] == JString("message")) && "data" in f then
        (match f["data"]
         case JString(s) => s
         case JObject(g) => if "text" in g && g["text"].JString? then g["text"].text else ""
         case _ => "")
      else ""
    case _ => ""
  }

  /** The frame as it is understood, sent by the client of this name at this time. */
  function Meaning(j: Json, username: string, now: Time): Frame {
    if TypeOf(j) == Some("edit") then
      if j.JObject? && "data" in j.fields && AsEdit(j.fields["data"], username).Some?
      then AsEdit(j.fields["data"], username).value else Ignored
    else
      var text := TrimSpace(ChatText(j));
      if text == "" then Ignored else ChatMessage(Message(0, username, Cut(text), now, false))
  }

  lemma CutEnds(t: string)
    requires t != "" && SpaceSize(t, 0) == 0 && SpaceAtEnd(t) == 0
    ensures Cut(t) != "" && SpaceSize(Cut(t), 0) == 0 && SpaceAtEnd(Cut(t)) == 0
    ensures |Cut(t)| <= TEXT_LIMIT + |CUT_MARK|
  {
    if |t| > TEXT_LIMIT {
      var c := Cut(t);
      assert c[0] == t[0] && c[1] == t[1] && c[2] == t[2];
      assert c[|c| - 1] == ')' && c[|c| - 2] == '\U{BE}' && c[|c| - 3] == '\U{D0}';
    }
  }

  /**
   A chat message always bears the client's own name and a text that is not empty or overlong and has no
   white space at either end.
   */
  lemma ChatIsTheClients(j: Json, username: string, now: Time)
    ensures match Meaning(j, username, now)
            case Ignored => true
            case EditRequest(_, _, name) => name == username
            case ChatMessage(m) =>
              && m.username == username && m.text != "" && SpaceSize(m.text, 0) == 0 && SpaceAtEnd(m.text) == 0
              && |m.text| <= TEXT_LIMIT + |CUT_MARK| && m.timestamp == now && !m.edited
  {
    Trimmed(ChatText(j));
    if TrimSpace(ChatText(j)) != "" {
      CutEnds(TrimSpace(ChatText(j)));
    }
  }

  /**
   The text of a chat message is well-formed UTF-8 exactly if the limit does not cut it inside a character.
   (What comes out of JSON is well-formed.)
   */
  lemma TextIsWellFormedIff(j: Json, username: string, now: Time)
    requires WellFormed(ChatText(j)) && Meaning(j, username, now).ChatMessage?
    ensures var t := TrimSpace(ChatText(j));
            WellFormed(Meaning(j, username, now).message.text) <==> |t| <= TEXT_LIMIT || !Continues(t[TEXT_LIMIT])
  {
    var t := TrimSpace(ChatText(j));
    Trimmed(ChatText(j));
    if |t| > TEXT_LIMIT {
      PrefixIff(t, TEXT_LIMIT);
      MarkIsWellFormed();
      AppendIff(t[..TEXT_LIMIT], CUT_MARK);
    }
  }

  /** What a frame of 4000 bytes 0xFF in quotes is read as: it has 4002 bytes, less than the read limit. */
  function BrokenFrame(): Json {
    JString(Repair(Repeat(['\U{FF}'], 4000)))
  }

  lemma {:induction false} RepeatAt(n: nat, i: nat, r: nat)
    requires i < n && r < 3
    ensures |Repeat(REPLACEMENT, n)| == 3 * n && Repeat(REPLACEMENT, n)[3 * i + r] == REPLACEMENT[r]
  {
    ReplacementsThenRest(n, "");
    if i > 0 {
      RepeatAt(n - 1, i - 1, r);
      assert Repeat(REPLACEMENT, n)[3 * i + r] == Repeat(REPLACEMENT, n - 1)[3 * (i - 1) + r];
    }
  }

  lemma TrimmedAlready(t: string)
    requires t != "" && SpaceSize(t, 0) == 0 && SpaceAtEnd(t) == 0
    ensures TrimSpace(t) == t
  {
  }

  lemma CutInside(t: string, username: string, now: Time)
    requires |t| > TEXT_LIMIT && WellFormed(t) && Continues(t[TEXT_LIMIT])
    requires SpaceSize(t, 0) == 0 && SpaceAtEnd(t) == 0
    ensures var m := Meaning(JString(t), username, now); m.ChatMessage? && !WellFormed(m.message.text)
  {
    assert ChatText(JString(t)) == t && TypeOf(JString(t)).None?;
    TrimmedAlready(t);
    TextIsWellFormedIff(JString(t), username, now);
  }

  /** A text of replacement characters whose limit falls after the first byte of one. */
  ghost predicate CutAfterFirstByte(t: string) {
    && |t| > TEXT_LIMIT && WellFormed(t) && t[0] == '\U{EF}' && t[TEXT_LIMIT] == '\U{BF}'
    && t[|t| - 3] == '\U{EF}' && t[|t| - 2] == '\U{BF}' && t[|t| - 1] == '\U{BD}'
  }

  lemma ReplacementsEnd(n: nat)
    requires n > 0
    ensures var t := Repeat(REPLACEMENT, n);
            |t| == 3 * n && t[3 * n - 3] == '\U{EF}' && t[3 * n - 2] == '\U{BF}' && t[3 * n - 1] == '\U{BD}'
  {
    RepeatAt(n, n - 1, 0);
    RepeatAt(n, n - 1, 1);
    RepeatAt(n, n - 1, 2);
  }

  lemma ReplacementsShape(n: nat)
    requires n > 3333
    ensures CutAfterFirstByte(Repeat(REPLACEMENT, n))
  {
    var t := Repeat(REPLACEMENT, n);
    assert WellFormed(t) by {
      ReplacementsThenRest(n, "");
      assert t + "" == t;
    }
    ReplacementsEnd(n);
    RepeatAt(n, 0, 0);
    RepeatAt(n, 3333, 1);
  }

  lemma NoSpaceAround(t: string)
    requires CutAfterFirstByte(t)
    ensures SpaceSize(t, 0) == 0 && SpaceAtEnd(t) == 0
  {
  }

  lemma ReplacementsAreCut(t: string, username: string, now: Time)
    requires CutAfterFirstByte(t)
    ensures var m := Meaning(JString(t), username, now); m.ChatMessage? && !WellFormed(m.message.text)
  {
    NoSpaceAround(t);
    CutInside(t, username, now);
  }

  /** The message a client sends with that frame is not well-formed. */
  lemma BrokenFrameIsCut(username: string, now: Time)
    ensures var m := Meaning(BrokenFrame(), username, now); m.ChatMessage? && !WellFormed(m.message.text)
  {
    RepairOfBroken(4000);
    ReplacementsShape(4000);
    ReplacementsAreCut(Repeat(REPLACEMENT, 4000), username, now);
  }

  // ---------- the formats, one by one ----------

  /** The object has no such field, or null, or a string there. */
  predicate MayBeString(g: map<string, Json>, field: string) {
    field !in g || g[field].JNull? || g[field].JString?
  }

  /** An edit request with a number, a new text and, perhaps, a name, which is not looked at. */
  lemma EditIsRead(f: map<string, Json>, g: map<string, Json>, n: nat, t: string, name: string, now: Time)
    requires "type" in f && f["type"] == JString("edit") && "data" in f && f["data"] == JObject(g)
    requires "messageId" in g && g["messageId"] == JNumber(n) && "newText" in g && g["newText"] == JString(t)
    requires MayBeString(g, "username")
    ensures Meaning(JObject(f), name, now) == EditRequest(n, t, name)
  {
  }

  /**
   An edit frame is a request exactly if its data are null, or an object without a field of the wrong type;
   otherwise it is thrown away. Fields that are missing or null count as zero and empty.
   */
  lemma EditIsReadIff(f: map<string, Json>, name: string, now: Time)
    requires "type" in f && f["type"] == JString("edit")
    ensures Meaning(JObject(f), name, now).EditRequest?
       <==> "data" in f
            && (f["data"].JNull?
                || (f["data"].JObject?
                    && var g := f["data"].fields;
                       && MayBeString(g, "newText") && MayBeString(g, "username")
                       && ("messageId" !in g || g["messageId"].JNull? || (g["messageId"].JNumber? && g["messageId"].number >= 0))))
    ensures !Meaning(JObject(f), name, now).EditRequest? ==> Meaning(JObject(f), name, now) == Ignored
    ensures "data" in f && f["data"].JNull? ==> Meaning(JObject(f), name, now) == EditRequest(0, "", name)
  {
  }

  /** The frame carries this text in one of the formats. A text field comes before the data. */
  predicate Carries(j: Json, t: string) {
    match j
    case JString(s) => s == t
    case JObject(f) =>
      && ("type" in f ==> f["type"] != JString("edit"))
      && if "text" in f && f["text"].JString? && f["text"].text != "" then f["text"] == JString(t)
         else "type" in f && (f["type"] == JString("chat") || f["type"] == JString("message")) && "data" in f
              && (f["data"] == JString(t)
                  || (f["data"].JObject? && "text" in f["data"].fields && f["data"].fields["text"] == JString(t)))
    case _ => false
  }

  lemma CarriedIsText(j: Json, t: string)
    requires Carries(j, t)
    ensures TypeOf(j) != Some("edit") && ChatText(j) == t
  {
  }

  /**
   A carried text is sent under the client's own name, without the white space around it. A text of more than
   10000 bytes is cut there and marked. One that is nothing but white space is ignored.
   */
  lemma CarriedTextIsSent(j: Json, l: seq<Scalar>, t: string, r: seq<Scalar>, name: string, now: Time)
    requires Carries(j, Encoded(l) + t + Encoded(r)) && AllWhite(l) && AllWhite(r) && StartsInk(t) && EndsInk(t)
    ensures Meaning(j, name, now)
         == if t == "" then Ignored
            else ChatMessage(Message(0, name, if |t| <= 10000 then t else t[..10000] + Encoded(MARK_POINTS), now, false))
  {
    CarriedIsText(j, Encoded(l) + t + Encoded(r));
    TrimIsExact(l, t, r);
    MarkIsSpelled();
  }

  /** Nothing else is sent. */
  lemma OnlyCarriedTextIsSent(j: Json, name: string, now: Time)
    requires Meaning(j, name, now).ChatMessage?
    ensures exists t :: Carries(j, t)
  {
    assert Carries(j, ChatText(j));
  }

  /** The fourth format: an object with a sender's name and a text. */
  method NamedFormat(raw: Json, name: string) returns (text: string, username: string)
    ensures text != "" ==> TextOf(raw, "text") == Some(text)
    ensures text == "" ==> username == name
  {
    text, username := "", name;
    var named, bodied := TextOf(raw, "username"), TextOf(raw, "text");
    if named.Some? && bodied.Some? {
      if bodied.value != "" {
        text := bodied.value;
        if named.value != "" {
          username := named.value;
        }
      }
    }
  }

  /**
   The cascade of the original: formats are tried one after the other as long as no text was found. The
   fourth one would take the sender's name from the frame, but whatever it accepts the second accepts.
   */
  method ReadFrame(raw: Json, name: string, now: Time) returns (frame: Frame)
    ensures frame == Meaning(raw, name, now)
  {
    var kind := TypeOf(raw);
    if kind.Some? && kind.value == "edit" {
      if raw.JObject? && "data" in raw.fields {
        var edit := AsEdit(raw.fields["data"], name);
        if edit.Some? {
          return edit.value;
        }
      }
      return Ignored;
    }

    var text := "";
    var username := name;

    var simple := AsString(raw);
    if simple.Some? && simple.value != "" {
      text := simple.value;
    }

    if text == "" {
      var plain := TextOf(raw, "text");
      if plain.Some? && plain.value != "" {
        text := plain.value;
      }
    }

    if text == "" {
      var typed := TypeOf(raw);
      if typed.Some? && (typed.value == "chat" || typed.value == "message") {
        if "data" in raw.fields {
          var data := TextOf(raw.fields["data"], "text");
          if data.Some? && data.value != "" {
            text := data.value;
          }
          if text == "" {
            var dataString := AsString(raw.fields["data"]);
            if dataString.Some? && dataString.value != "" {
              text := dataString.value;
            }
          }
        }
      }
    }

    if text == "" {
      text, username := NamedFormat(raw, name);
    }
    assert text == ChatText(raw) && username == name;

    if text == "" {
      return Ignored;
    }
    text := TrimSpace(text);
    if text == "" {
      return Ignored;
    }
    if |text| > 10000 {
      text := text[..10000] + CUT_MARK;
    }
    return ChatMessage(Message(0, username, text, now, false));
  }
}
