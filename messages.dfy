/**
 * The message list that both message services keep in memory, and the
 * functions that specify their id allocation and their search by id.
 */
module Messages {

  datatype Message = Message(id: int, content: string)

  /** `max((m.id for m in s), default=-1)`. */
  function MaxId(s: seq<Message>): (r: int)
    ensures forall i :: 0 <= i < |s| ==> s[i].id <= r
    ensures s == [] ==> r == -1
    ensures s != [] ==> exists i :: 0 <= i < |s| && s[i].id == r
    decreases |s|
  {
    if s == [] then -1
    else
      var m := MaxId(s[..|s| - 1]);
      var last := s[|s| - 1].id;
      if |s| == 1 || last > m then last else m
  }

  /** The id a create hands out: one past the largest stored id, 0 for an empty list. */
  function NextId(s: seq<Message>): (r: int)
    ensures forall i :: 0 <= i < |s| ==> s[i].id < r
    ensures s == [] ==> r == 0
    ensures s != [] ==> exists i :: 0 <= i < |s| && s[i].id == r - 1
  {
    MaxId(s) + 1
  }

  /** The position of the first message with `id`, or -1 when there is none. */
  function IndexOf(s: seq<Message>, id: int): (r: int)
    ensures -1 <= r < |s|
    ensures r == -1 <==> forall i :: 0 <= i < |s| ==> s[i].id != id
    ensures r >= 0 ==> s[r].id == id && forall j :: 0 <= j < r ==> s[j].id != id
    decreases |s|
  {
    if s == [] then -1
    else if s[0].id == id then 0
    else
      var r := IndexOf(s[1..], id);
      if r == -1 then -1 else r + 1
  }

  /** No two messages share an id. */
  predicate UniqueIds(s: seq<Message>) {
    forall i, j :: 0 <= i < j < |s| ==> s[i].id != s[j].id
  }

  /** `s.pop(k)`: the list without position k, the rest in order. */
  function Remove(s: seq<Message>, k: int): (r: seq<Message>)
    requires 0 <= k < |s|
    ensures |r| == |s| - 1
    ensures forall j :: 0 <= j < k ==> r[j] == s[j]
    ensures forall j :: k <= j < |r| ==> r[j] == s[j + 1]
  {
    s[..k] + s[k + 1..]
  }

  /** A message created with NextId is new: the list stays free of duplicate ids. */
  lemma AppendFreshKeepsUnique(s: seq<Message>, content: string)
    requires UniqueIds(s)
    ensures UniqueIds(s + [Message(NextId(s), content)])
  {
    var t := s + [Message(NextId(s), content)];
    forall i, j | 0 <= i < j < |t| ensures t[i].id != t[j].id {
      if j == |s| {
        assert t[i] == s[i];
      } else {
        assert t[i] == s[i] && t[j] == s[j];
      }
    }
  }

  /** The created message is found at the end of the list. */
  lemma {:induction false} CreatedIsFound(s: seq<Message>, content: string)
    ensures IndexOf(s + [Message(NextId(s), content)], NextId(s)) == |s|
  {
    IndexOfAfterAbsent(s, Message(NextId(s), content));
  }

  /** Appending `m` when no stored message has its id puts the first match at the end. */
  lemma {:induction false} IndexOfAfterAbsent(s: seq<Message>, m: Message)
    requires forall i :: 0 <= i < |s| ==> s[i].id != m.id
    ensures IndexOf(s + [m], m.id) == |s|
    decreases |s|
  {
    if s != [] {
      assert (s + [m])[1..] == s[1..] + [m];
      IndexOfAfterAbsent(s[1..], m);
    }
  }

  /** With unique ids, removing the match removes the id and keeps ids unique. */
  lemma DeleteRemovesId(s: seq<Message>, id: int)
    requires UniqueIds(s)
    requires IndexOf(s, id) >= 0
    ensures IndexOf(Remove(s, IndexOf(s, id)), id) == -1
    ensures UniqueIds(Remove(s, IndexOf(s, id)))
  {
    var k := IndexOf(s, id);
    var r := Remove(s, k);
    forall j | 0 <= j < |r| ensures r[j].id != id {
      if j < k {
        assert r[j] == s[j];
      } else {
        assert r[j] == s[j + 1];
      }
    }
    forall i, j | 0 <= i < j < |r| ensures r[i].id != r[j].id {
      var si := if i < k then i else i + 1;
      var sj := if j < k then j else j + 1;
      assert r[i] == s[si] && r[j] == s[sj];
    }
  }

  /** Writing a message with the same id over position k keeps ids unique and k the match. */
  lemma ReplaceKeepsIndex(s: seq<Message>, id: int, content: string)
    requires UniqueIds(s)
    requires IndexOf(s, id) >= 0
    ensures UniqueIds(s[IndexOf(s, id) := Message(id, content)])
    ensures IndexOf(s[IndexOf(s, id) := Message(id, content)], id) == IndexOf(s, id)
  {
    var k := IndexOf(s, id);
    var t := s[k := Message(id, content)];
    assert forall j :: 0 <= j < |t| ==> t[j].id == s[j].id;
  }
}
