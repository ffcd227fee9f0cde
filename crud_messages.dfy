/**
 * The message service with HTML pages: the same kind of in-memory list,
 * where each handler runs its own search loop over it.
 */
module CrudMessages {
  import opened Outcomes
  import opened Texts
  import opened Messages

  class MessageBoard {
    var messages: seq<Message>

    /** The list starts with one post, id 0. */
    constructor ()
      ensures messages == [Message(0, "First post in FastAPI")]
      ensures UniqueIds(messages)
    {
      messages := [Message(0, "First post in FastAPI")];
    }

    /** `max((msg.id for msg in messages_db), default=-1) + 1`. */
    method AllocateId() returns (id: int)
      ensures id == NextId(messages)
    {
      var max := -1;
      for i := 0 to |messages|
        invariant max == MaxId(messages[..i])
      {
        assert messages[..i + 1][..i] == messages[..i];
        if i == 0 || messages[i].id > max {
          max := messages[i].id;
        }
      }
      assert messages[..|messages|] == messages;
      id := max + 1;
    }

    /** POST /messages: append a message with the next id. */
    method CreateMessage(content: string) returns (m: Message)
      modifies this
      ensures m == Message(NextId(old(messages)), content)
      ensures messages == old(messages) + [m]
      ensures UniqueIds(old(messages)) ==> UniqueIds(messages)
    {
      var id := AllocateId();
      m := Message(id, content);
      if UniqueIds(messages) {
        AppendFreshKeepsUnique(messages, content);
      }
      messages := messages + [m];
    }

    /** POST /web/messages: the form path allocates and appends exactly like the JSON one. */
    method CreateMessageForm(content: string) returns (m: Message)
      modifies this
      ensures m == Message(NextId(old(messages)), content)
      ensures messages == old(messages) + [m]
      ensures UniqueIds(old(messages)) ==> UniqueIds(messages)
    {
      var id := AllocateId();
      m := Message(id, content);
      if UniqueIds(messages) {
        AppendFreshKeepsUnique(messages, content);
      }
      messages := messages + [m];
    }

    /** GET /messages: the whole list, in order. */
    method ReadMessages() returns (r: seq<Message>)
      ensures r == messages
    {
      return messages;
    }

    /** GET /messages/{id} (and its HTML page): the first message with the id, else 404. */
    method ReadMessage(id: int) returns (r: Result<Message, ApiError>)
      ensures r.Failure? <==> IndexOf(messages, id) == -1
      ensures r.Failure? ==> r.error == NotFound("Message not found")
      ensures r.Success? ==> r.value.id == id && r.value == messages[IndexOf(messages, id)]
    {
      for i := 0 to |messages|
        invariant forall j :: 0 <= j < i ==> messages[j].id != id
      {
        if messages[i].id == id {
          return Success(messages[i]);
        }
      }
      return Failure(NotFound("Message not found"));
    }

    /** PUT /messages/{id}: the first match is replaced with the same id and the new content. */
    method UpdateMessage(id: int, content: string) returns (r: Result<Message, ApiError>)
      modifies this
      ensures IndexOf(old(messages), id) == -1 ==> r == Failure(NotFound("Message not found")) && messages == old(messages)
      ensures IndexOf(old(messages), id) >= 0 ==>
        && r == Success(Message(id, content))
        && messages == old(messages)[IndexOf(old(messages), id) := r.value]
    {
      for i := 0 to |messages|
        invariant forall j :: 0 <= j < i ==> messages[j].id != id
        invariant messages == old(messages)
      {
        if messages[i].id == id {
          var updated := Message(id, content);
          messages := messages[i := updated];
          return Success(updated);
        }
      }
      return Failure(NotFound("Message not found"));
    }

    /** DELETE /messages/{id}: the first match is popped, else 404 with no change. */
    method DeleteMessage(id: int) returns (r: Result<string, ApiError>)
      modifies this
      ensures IndexOf(old(messages), id) == -1 ==>
        r == Failure(NotFound("Message with this ID does not exist")) && messages == old(messages)
      ensures IndexOf(old(messages), id) >= 0 ==>
        && r == Success("Message ID=" + DecimalText(id) + " deleted!")
        && messages == Remove(old(messages), IndexOf(old(messages), id))
    {
      for i := 0 to |messages|
        invariant forall j :: 0 <= j < i ==> messages[j].id != id
        invariant messages == old(messages)
      {
        if messages[i].id == id {
          messages := messages[..i] + messages[i + 1..];
          return Success("Message ID=" + DecimalText(id) + " deleted!");
        }
      }
      return Failure(NotFound("Message with this ID does not exist"));
    }

    /** DELETE /messages: the list is emptied. */
    method DeleteMessages() returns (r: string)
      modifies this
      ensures messages == [] && r == "DB cleared"
    {
      messages := [];
      return "DB cleared";
    }
  }
}
