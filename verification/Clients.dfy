/** A connected client and its three bounded queues. */
module Clients {
  import opened Types

  const SEND_CAPACITY: nat := 256
  const FILE_CAPACITY: nat := 32
  const ONLINE_CAPACITY: nat := 8

  datatype FileEvent = FileEvent(eventType: string, chatID: string, file: string, username: string, owner: string, timestamp: Time)

  datatype OnlineData = OnlineData(count: nat, users: set<string>)

  /** A buffered channel: what is in the buffer, and whether it was closed. */
  datatype Channel<+T> = Channel(queue: seq<T>, closed: bool)

  /** A non-blocking send: a full buffer drops the value. Sending on a closed channel is a panic. */
  function Offer<T>(ch: Channel<T>, capacity: nat, x: T): Channel<T> {
    if ch.closed || |ch.queue| >= capacity then ch else ch.(queue := ch.queue + [x])
  }

  predicate Full<T>(ch: Channel<T>, capacity: nat) {
    |ch.queue| >= capacity
  }

  datatype Queues = Queues(send: Channel<Message>, files: Channel<FileEvent>, online: Channel<OnlineData>)

  const FRESH_QUEUES := Queues(Channel([], false), Channel([], false), Channel([], false))

  class Client {
    const Username: string
    var Send: Channel<Message>
    var SendFileEvent: Channel<FileEvent>
    var SendOnline: Channel<OnlineData>

    constructor (username: string)
      ensures Username == username && State() == FRESH_QUEUES
    {
      Username := username;
      Send, SendFileEvent, SendOnline := Channel([], false), Channel([], false), Channel([], false);
    }

    ghost function State(): Queues
      reads this
    {
      Queues(Send, SendFileEvent, SendOnline)
    }

    /** What WritePump does with a message waiting for it. */
    method TakeMessage() returns (message: Message)
      requires Send.queue != []
      modifies this`Send
      ensures [message] + Send.queue == old(Send.queue) && Send.closed == old(Send.closed)
    {
      message := Send.queue[0];
      Send := Send.(queue := Send.queue[1..]);
    }
  }
}
