/**
 * The JSON message service: a list of messages changed in place by
 * append, index assignment, field assignment and pop, searched by id.
 */
module MainMessages {
  import opened Outcomes
  import opened Messages

  class MessageService {
    var messages: seq<Message>

    /** The list starts with one greeting, id 0. */
    constructor ()
      ensures messages == [Message(0, "My first message")]
      ensures UniqueIds(messages)
    {
      messages := [Message(0, "My first message")];
    }

    /** next_id: one past the largest id, scanning the list once. */
    method NextId() returns (id: int)
      ensures id == Messages.NextId(messages)
    {
      var max := -1;
      var i := 0;
      while i < |messages|
        invariant 0 <= i <= |messages|
        invariant max == MaxId(messages[..i])
      {
        assert messages[..i + 1][..i] == messages[..i];
        if i == 0 || messages[i].id > max {
          max := messages[i].id;
        }
        i := i + 1;
      }
      assert messages[..i] == messages;
      return max + 1;
    }

    /** get_index: the position of the first message with `id`, or -1. */
    method GetIndex(id: int) returns (index: int)
      ensures index == IndexOf(messages, id)
    {
      var i := 0;
      while i < |messages|
        invariant 0 <= i <= |messages|
        invariant forall j :: 0 <= j < i ==> messages[j].id != id
      {
        if messages[i].id == id {
          return i;
        }
        i := i + 1;
      }
      return -1;
    }

    /** GET /messages: the whole list, in order. */
    method GetMessages() returns (r: seq<Message>)
      ensures r == messages
    {
      return messages;
    }

    /** POST /messages: append a message with a fresh id. */
    method CreateMessage(content: string) returns (m: Message)
      modifies this
      ensures m == Message(Messages.NextId(old(messages)), content)
      ensures messages == old(messages) + [m]
      ensures UniqueIds(old(messages)) ==> UniqueIds(messages)
      ensures IndexOf(messages, m.id) == |old(messages)|
    {
      var id := NextId();
      m := Message(id, content);
      if UniqueIds(messages) {
        AppendFreshKeepsUnique(messages, content);
      }
      CreatedIsFound(messages, content);
      messages := messages + [m];
    }

    /** GET /messages/{id}: the first message with the id, else 404. */
    method GetMessage(id: int) returns (r: Result<Message, ApiError>)
      ensures r.Failure? <==> forall i :: 0 <= i < |messages| ==> messages[i].id != id
      ensures r.Failure? ==> r.error == NotFound("Message not found")
      ensures r.Success? ==> r.value.id == id && r.value == messages[IndexOf(messages, id)]
    {
      var index := GetIndex(id);
      if index == -1 {
        return Failure(NotFound("Message not found"));
      }
      return Success(messages[index]);
    }

    /**
     * PATCH /messages/{id}: 404 when the id is absent; otherwise, when a
     * content is given, only that message's content changes.
     */
    method UpdateMessage(id: int, content: Option<string>) returns (r: Result<Message, ApiError>)
      modifies this
      ensures IndexOf(old(messages), id) == -1 ==> r == Failure(NotFound("Message not found")) && messages == old(messages)
      ensures IndexOf(old(messages), id) >= 0 && content.None? ==>
        r == Success(old(messages)[IndexOf(old(messages), id)]) && messages == old(messages)
      ensures IndexOf(old(messages), id) >= 0 && content.Some? ==>
        && r == Success(Message(id, content.value))
        && messages == old(messages)[IndexOf(old(messages), id) := r.value]
    {
      var index := GetIndex(id);
      if index == -1 {
        return Failure(NotFound("Message not found"));
      }
      if content.Some? {
        messages := messages[index := messages[index].(content := content.value)];
      }
      return Success(messages[index]);
    }

    /** PUT /messages/{id}: 404 when absent; otherwise the match is replaced, keeping its id. */
    method ReplaceMessage(id: int, content: string) returns (r: Result<Message, ApiError>)
      modifies this
      ensures IndexOf(old(messages), id) == -1 ==> r == Failure(NotFound("Message not found")) && messages == old(messages)
      ensures IndexOf(old(messages), id) >= 0 ==>
        && r == Success(Message(id, content))
        && messages == old(messages)[IndexOf(old(messages), id) := r.value]
    {
      var index := GetIndex(id);
      if index == -1 {
        return Failure(NotFound("Message not found"));
      }
      var message := Message(id, content);
      messages := messages[index := message];
      return Success(message);
    }

    /** DELETE /messages/{id}: 404 when absent; otherwise the match is popped. */
    method DeleteMessage(id: int) returns (r: Result<(), ApiError>)
      modifies this
      ensures IndexOf(old(messages), id) == -1 ==> r == Failure(NotFound("Message not found")) && messages == old(messages)
      ensures IndexOf(old(messages), id) >= 0 ==>
        r == Success(()) && messages == Remove(old(messages), IndexOf(old(messages), id))
    {
      var index := GetIndex(id);
      if index == -1 {
        return Failure(NotFound("Message not found"));
      }
      messages := messages[..index] + messages[index + 1..];
      return Success(());
    }
  }
}
