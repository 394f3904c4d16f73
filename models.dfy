/** The data classes of src/duckai/models.py: one chat message, and a
    conversation that collects messages in order. */
module Models {
  import opened Wrappers

  /** A `datetime` value. The clock is not modelled: whoever creates a
      message passes in what `datetime.now()` would have returned. */
  type Timestamp = int

  /** The API form of a message: a dictionary with exactly the keys
      "role" and "content". */
  type ApiMessage = map<string, string>

  /** The dictionary `{"role": role, "content": content}`. */
  function ApiMessageOf(role: string, content: string): (d: ApiMessage)
    ensures d.Keys == {"role", "content"}
    ensures d["role"] == role && d["content"] == content
  {
    map["role" := role, "content" := content]
  }

  /** `Message`, a dataclass: role ("user" or "assistant", not checked),
      content, and optional timestamp and model name. */
  class Message {
    var role: string
    var content: string
    var timestamp: Option<Timestamp>
    var model: Option<string>

    /** The dataclass constructor followed by `__post_init__`, which
        fills in a missing timestamp from the clock. */
    constructor (role: string, content: string, timestamp: Option<Timestamp>, model: Option<string>, now: Timestamp)
      ensures this.role == role && this.content == content && this.model == model
      ensures timestamp.Some? ==> this.timestamp == timestamp
      ensures timestamp.None? ==> this.timestamp == Some(now)
      ensures this.timestamp.Some?
    {
      this.role := role;
      this.content := content;
      this.timestamp := timestamp;
      this.model := model;
      new;
      if this.timestamp.None? {
        this.timestamp := Some(now);
      }
    }

    /** `to_dict`: the role and content only; timestamp and model are
        not sent to the API. */
    function ToDict(): (d: ApiMessage)
      reads this
      ensures d == ApiMessageOf(role, content)
    {
      ApiMessageOf(role, content)
    }
  }

  /** The API form of a list of messages, element by element. */
  function ApiFormat(messages: seq<Message>): (r: seq<ApiMessage>)
    reads messages
    ensures |r| == |messages|
    ensures forall i :: 0 <= i < |messages| ==> r[i] == messages[i].ToDict()
  {
    if messages == [] then []
    else ApiFormat(messages[..|messages| - 1]) + [messages[|messages| - 1].ToDict()]
  }

  /** `Conversation`, a dataclass: an id, the messages in the order they
      were added, a model name and a creation time. */
  class Conversation {
    var id: string
    var messages: seq<Message>
    var model: string
    var createdAt: Timestamp

    constructor (id: string, messages: seq<Message>, model: string, createdAt: Timestamp)
      ensures this.id == id && this.messages == messages
      ensures this.model == model && this.createdAt == createdAt
    {
      this.id := id;
      this.messages := messages;
      this.model := model;
      this.createdAt := createdAt;
    }

    /** `add_message`: a new message with the given role and content,
        stamped with the clock, is appended at the end and returned. */
    method AddMessage(role: string, content: string, now: Timestamp) returns (msg: Message)
      modifies this
      ensures fresh(msg)
      ensures messages == old(messages) + [msg]
      ensures unchanged(old(messages))
      ensures msg.role == role && msg.content == content
      ensures msg.timestamp == Some(now) && msg.model == None
      ensures id == old(id) && model == old(model) && createdAt == old(createdAt)
      ensures ToApiFormat() == old(ToApiFormat()) + [ApiMessageOf(role, content)]
    {
      msg := new Message(role, content, None, None, now);
      messages := messages + [msg];
      assert messages[..|messages| - 1] == old(messages);
    }

    /** `to_api_format`: the messages in API form, in order. */
    function ToApiFormat(): (r: seq<ApiMessage>)
      reads this, messages
      ensures |r| == |messages|
      ensures forall i :: 0 <= i < |messages| ==> r[i] == messages[i].ToDict()
    {
      ApiFormat(messages)
    }
  }
}
