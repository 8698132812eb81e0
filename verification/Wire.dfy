/** What servers send each other through Redis, and what they make of it. */
module Wire {
  import opened Types
  import opened Utf8
  import opened Clients

  /**
   JSON values. Their strings are well-formed UTF-8. A time and the base64 form of a byte slice (section 4
   of RFC 4648) are written as strings; which of the two a string is can be told when it is read.
   */
  datatype Json =
    | JNull
    | JBool(flag: bool)
    | JNumber(number: int)
    | JString(text: string)
    | JTime(time: Time)
    | JBase64(bytes: Json)
    | JObject(fields: map<string, Json>)

  datatype Payload = Chat(message: Message) | Notice(event: FileEvent)

  /** Identifiers and flags with the zero value are left out. */
  function MessageJson(m: Message): Json {
    JObject(map["username" := JString(Repair(m.username)), "text" := JString(Repair(m.text)), "timestamp" := JTime(m.timestamp)]
            + (if m.id == 0 then map[] else map["id" := JNumber(m.id)])
            + (if m.edited then map["edited" := JBool(true)] else map[]))
  }

  function EventJson(e: FileEvent): Json {
    JObject(map["eventType" := JString(Repair(e.eventType)), "chatId" := JString(Repair(e.chatID)),
                "file" := JString(Repair(e.file)), "username" := JString(Repair(e.username)),
                "owner" := JString(Repair(e.owner)), "timestamp" := JTime(e.timestamp)])
  }

  function PayloadJson(p: Payload): Json {
    match p
    case Chat(m) => MessageJson(m)
    case Notice(e) => EventJson(e)
  }

  // A field that is missing or null keeps its zero value; one of another type fails the decoding.

  function StringField(f: map<string, Json>, name: string): Option<string> {
    if name !in f || f[name].JNull? then Some("")
    else if f[name].JString? then Some(f[name].text)
    else None
  }

  function TimeField(f: map<string, Json>, name: string): Option<Time> {
    if name !in f || f[name].JNull? then Some(ZERO_TIME)
    else if f[name].JTime? then Some(f[name].time)
    else None
  }

  function NumberField(f: map<string, Json>, name: string): Option<nat> {
    if name !in f || f[name].JNull? then Some(0)
    else if f[name].JNumber? && f[name].number >= 0 then Some(f[name].number)
    else None
  }

  function BoolField(f: map<string, Json>, name: string): Option<bool> {
    if name !in f || f[name].JNull? then Some(false)
    else if f[name].JBool? then Some(f[name].flag)
    else None
  }

  function DecodeMessage(j: Json): Option<Message> {
    match j
    case JNull => Some(Message(0, "", "", ZERO_TIME, false))
    case JObject(f) =>
      var id, username, text := NumberField(f, "id"), StringField(f, "username"), StringField(f, "text");
      var timestamp, edited := TimeField(f, "timestamp"), BoolField(f, "edited");
      if id.None? || username.None? || text.None? || timestamp.None? || edited.None? then None
      else Some(Message(id.value, username.value, text.value, timestamp.value, edited.value))
    case _ => None
  }

  function DecodeEvent(j: Json): Option<FileEvent> {
    match j
    case JNull => Some(FileEvent("", "", "", "", "", ZERO_TIME))
    case JObject(f) =>
      var kind, chat, file := StringField(f, "eventType"), StringField(f, "chatId"), StringField(f, "file");
      var username, owner, timestamp := StringField(f, "username"), StringField(f, "owner"), TimeField(f, "timestamp");
      if kind.None? || chat.None? || file.None? || username.None? || owner.None? || timestamp.None? then None
      else Some(FileEvent(kind.value, chat.value, file.value, username.value, owner.value, timestamp.value))
    case _ => None
  }

  /** How the publisher puts the payload into the envelope: the code marshals it as a byte slice. */
  datatype Wrapping = AsBytes | AsRaw

  datatype Envelope = Envelope(serverID: string, data: Json)

  function Wrap(w: Wrapping, p: Payload): Json {
    match w
    case AsBytes => JBase64(PayloadJson(p))
    case AsRaw => PayloadJson(p)
  }

  /** What a server does with an envelope it received. A message is tried before a file event. */
  datatype Reaction = Ignore | ShowMessage(message: Message) | ShowEvent(event: FileEvent) | Discard

  function React(self: string, env: Envelope): Reaction {
    if env.serverID == self then Ignore
    else if DecodeMessage(env.data).Some? then ShowMessage(DecodeMessage(env.data).value)
    else if DecodeEvent(env.data).Some? then ShowEvent(DecodeEvent(env.data).value)
    else Discard
  }

  // ---------- properties of the codec ----------

  function Repaired(m: Message): Message {
    m.(username := Repair(m.username), text := Repair(m.text))
  }

  /** Author and text are well-formed. */
  predicate Intact(m: Message) {
    WellFormed(m.username) && WellFormed(m.text)
  }

  lemma RepairedIff(m: Message)
    ensures Repaired(m) == m <==> Intact(m)
    ensures Intact(Repaired(m))
  {
    RepairIff(m.username);
    RepairIff(m.text);
  }

  lemma MessageFields(m: Message)
    ensures var f := MessageJson(m).fields;
            && NumberField(f, "id") == Some(m.id) && BoolField(f, "edited") == Some(m.edited)
            && StringField(f, "username") == Some(Repair(m.username)) && StringField(f, "text") == Some(Repair(m.text))
            && TimeField(f, "timestamp") == Some(m.timestamp)
  {
    var f := MessageJson(m).fields;
    assert "id" in f <==> m.id != 0;
    assert "edited" in f <==> m.edited;
  }

  /** Otherwise, with a text as its file if it has one, it is a file event exactly if its fields have the types of one. */
  lemma ReadsAsEventIff(self: string, env: Envelope)
    requires env.serverID != self && !React(self, env).ShowMessage?
    requires env.data.JObject? && "file" in env.data.fields ==> env.data.fields["file"].JNull? || env.data.fields["file"].JString?
    ensures React(self, env).ShowEvent?
       <==> env.data.JObject?
            && var f := env.data.fields;
               && (forall name | name in {"eventType", "chatId", "username", "owner"} ::
                     name !in f || f[name].JNull? || f[name].JString?)
               && ("timestamp" !in f || f["timestamp"].JNull? || f["timestamp"].JTime?)
    ensures !React(self, env).ShowEvent? ==> React(self, env) == Discard
    ensures DecodeEvent(JNull) == Some(FileEvent("", "", "", "", "", 0))
  {
  }

  function RepairedEvent(e: FileEvent): FileEvent {
    FileEvent(Repair(e.eventType), Repair(e.chatID), Repair(e.file), Repair(e.username), Repair(e.owner), e.timestamp)
  }

  /** Under which names a file event is sent. */
  lemma EventIsSpelled(e: FileEvent)
    ensures EventJson(e).JObject? && EventJson(e).fields.Keys == {"eventType", "chatId", "file", "username", "owner", "timestamp"}
    ensures var f := EventJson(e).fields;
            && f["eventType"] == JString(Repair(e.eventType)) && f["chatId"] == JString(Repair(e.chatID))
            && f["file"] == JString(Repair(e.file)) && f["username"] == JString(Repair(e.username))
            && f["owner"] == JString(Repair(e.owner)) && f["timestamp"] == JTime(e.timestamp)
  {
  }

  lemma EventIsReadBack(e: FileEvent)
    ensures DecodeEvent(EventJson(e)) == Some(RepairedEvent(e))
  {
    EventIsSpelled(e);
  }

  /** A file event comes back unchanged exactly if all its texts are well-formed. */
  lemma EventRoundTrip(e: FileEvent)
    ensures DecodeEvent(EventJson(e)) == Some(RepairedEvent(e))
    ensures DecodeEvent(EventJson(e)) == Some(e)
       <==> WellFormed(e.eventType) && WellFormed(e.chatID) && WellFormed(e.file) && WellFormed(e.username) && WellFormed(e.owner)
  {
    EventIsReadBack(e);
    RepairIff(e.eventType);
    RepairIff(e.chatID);
    RepairIff(e.file);
    RepairIff(e.username);
    RepairIff(e.owner);
  }

  /** Under which names a message is sent. */
  lemma MessageIsSpelled(m: Message)
    ensures MessageJson(m).JObject?
    ensures var f := MessageJson(m).fields;
            && f.Keys == {"username", "text", "timestamp"} + (if m.id == 0 then {} else {"id"}) + (if m.edited then {"edited"} else {})
            && f["username"] == JString(Repair(m.username)) && f["text"] == JString(Repair(m.text))
            && f["timestamp"] == JTime(m.timestamp)
            && (m.id != 0 ==> f["id"] == JNumber(m.id)) && (m.edited ==> f["edited"] == JBool(true))
  {
  }

  /** What is received is a message exactly if it is null, or an object without a field of the wrong type. */
  lemma ReadsAsMessageIff(self: string, env: Envelope)
    requires env.serverID != self
    ensures env.data.JNull? ==> React(self, env) == ShowMessage(Message(0, "", "", 0, false))
    ensures React(self, env).ShowMessage? && !env.data.JNull?
       <==> env.data.JObject?
            && var f := env.data.fields;
               && ("id" !in f || f["id"].JNull? || (f["id"].JNumber? && f["id"].number >= 0))
               && ("username" !in f || f["username"].JNull? || f["username"].JString?)
               && ("text" !in f || f["text"].JNull? || f["text"].JString?)
               && ("timestamp" !in f || f["timestamp"].JNull? || f["timestamp"].JTime?)
               && ("edited" !in f || f["edited"].JNull? || f["edited"].JBool?)
    ensures !React(self, env).Ignore?
  {
  }

  /** Embedded as raw JSON, a message comes back unchanged exactly if its author and text are well-formed. */
  lemma MessageRoundTrip(m: Message)
    ensures DecodeMessage(MessageJson(m)) == Some(Repaired(m))
    ensures DecodeMessage(MessageJson(m)) == Some(m) <==> Intact(m)
  {
    MessageFields(m);
    RepairedIff(m);
  }

  /**
   A message sent to another server is shown there, as it was, exactly when it is embedded raw and is
   well-formed.
   */
  lemma MessageArrivesIff(w: Wrapping, origin: string, self: string, m: Message)
    requires origin != self
    ensures React(self, Envelope(origin, Wrap(w, Chat(m)))) == ShowMessage(m) <==> w.AsRaw? && Intact(m)
  {
    MessageRoundTrip(m);
  }

  /** As the code embeds it, whatever is sent is thrown away. */
  lemma BytesAreDiscarded(origin: string, self: string, p: Payload)
    requires origin != self
    ensures React(self, Envelope(origin, Wrap(AsBytes, p))) == Discard
  {
  }

  /**
   Embedded raw, a file event would be taken for a chat message without text: every field of a message
   is missing from it or of the right type, and messages are tried first.
   */
  lemma EventsReadAsMessages(origin: string, self: string, e: FileEvent)
    requires origin != self
    ensures React(self, Envelope(origin, Wrap(AsRaw, Notice(e)))) == ShowMessage(Message(0, Repair(e.username), "", e.timestamp, false))
  {
  }
}
