/**
 * The store's records and the collection operations on them: the lookup by
 * id (`findIndex`), the upsert a completed reply performs, and the
 * `max + 1` id allocation of a new chat.
 */
module Conversations {
  import opened Optional

  /** One chat bubble. The id is the decimal rendering of a wall-clock
      reading, so it is kept opaque. */
  datatype Message = Message(id: string, text: string, isUser: bool)

  /** A chat: a numeric id and its messages in display order. */
  datatype Conversation = Conversation(id: int, messages: seq<Message>)

  /** Some entry of `cs` carries id `id`. */
  ghost predicate HasId(cs: seq<Conversation>, id: int) {
    exists i :: 0 <= i < |cs| && cs[i].id == id
  }

  /** `i` is the first position of `cs` whose entry carries `id`. */
  ghost predicate IsFirstIndex(cs: seq<Conversation>, id: int, i: int) {
    && 0 <= i < |cs|
    && cs[i].id == id
    && forall j :: 0 <= j < i ==> cs[j].id != id
  }

  /** No two entries of the collection share an id. */
  ghost predicate DistinctIds(cs: seq<Conversation>) {
    forall i, j :: 0 <= i < j < |cs| ==> cs[i].id != cs[j].id
  }

  /** The number of entries carrying `id`. */
  function Count(cs: seq<Conversation>, id: int): nat {
    if |cs| == 0 then 0
    else (if cs[0].id == id then 1 else 0) + Count(cs[1..], id)
  }

  /** `findIndex(c => c.id === id)`, with `None` in place of -1. */
  function FindIndex(cs: seq<Conversation>, id: int): (r: Option<nat>)
    ensures r.Some? ==> IsFirstIndex(cs, id, r.value)
    ensures r.None? <==> !HasId(cs, id)
  {
    if |cs| == 0 then None
    else if cs[0].id == id then Some(0)
    else match FindIndex(cs[1..], id)
      case None =>
        assert forall i :: 1 <= i < |cs| ==> cs[i] == cs[1..][i - 1];
        None
      case Some(k) =>
        assert cs[k + 1] == cs[1..][k];
        assert forall j :: 1 <= j < k + 1 ==> cs[j] == cs[1..][j - 1];
        Some(k + 1)
  }

  /** Stores `c` in the collection: it replaces the first entry with the
      same id, leaving every other entry where it was, or, when no entry
      has that id, it is appended at the end. Distinct ids stay distinct. */
  function Upsert(cs: seq<Conversation>, c: Conversation): (r: seq<Conversation>)
    ensures forall i {:trigger IsFirstIndex(cs, c.id, i)} ::
              IsFirstIndex(cs, c.id, i) ==> r == cs[i := c]
    ensures !HasId(cs, c.id) ==> r == cs + [c]
    ensures HasId(r, c.id)
    ensures DistinctIds(cs) ==> DistinctIds(r)
  {
    match FindIndex(cs, c.id)
    case Some(i) =>
      assert (cs[i := c])[i] == c;
      cs[i := c]
    case None =>
      assert (cs + [c])[|cs|] == c;
      cs + [c]
  }

  /** `Math.max(...cs.map(c => c.id))` on a non-empty collection. */
  function MaxId(cs: seq<Conversation>): (r: int)
    requires |cs| > 0
    ensures forall i :: 0 <= i < |cs| ==> cs[i].id <= r
    ensures HasId(cs, r)
  {
    if |cs| == 1 then cs[0].id
    else
      var m := MaxId(cs[1..]);
      assert forall i :: 1 <= i < |cs| ==> cs[i] == cs[1..][i - 1];
      if cs[0].id >= m then cs[0].id else m
  }

  /** The id a new chat receives: one more than the largest id in the
      collection, or 1 when the collection is empty. It is therefore the
      least integer above every id in use (and 1 if none is). */
  function NextId(cs: seq<Conversation>): (r: int)
    ensures forall i :: 0 <= i < |cs| ==> cs[i].id < r
    ensures |cs| == 0 ==> r == 1
    ensures |cs| > 0 ==> HasId(cs, r - 1)
  {
    if |cs| > 0 then MaxId(cs) + 1 else 1
  }

  /** `Count` agrees with the distinct-ids reading of "occurs once": in a
      collection without repeated ids, an id occurs once when present and
      not at all otherwise. */
  lemma {:induction false} DistinctCount(cs: seq<Conversation>, id: int)
    requires DistinctIds(cs)
    ensures Count(cs, id) == if HasId(cs, id) then 1 else 0
  {
    if |cs| > 0 {
      var tail := cs[1..];
      assert forall i :: 1 <= i < |cs| ==> cs[i] == tail[i - 1];
      assert DistinctIds(tail) by {
        forall i, j | 0 <= i < j < |tail| ensures tail[i].id != tail[j].id {
          assert tail[i] == cs[i + 1] && tail[j] == cs[j + 1];
        }
      }
      DistinctCount(tail, id);
      if cs[0].id == id {
        assert !HasId(tail, id);
      } else {
        assert HasId(cs, id) <==> HasId(tail, id) by {
          if HasId(tail, id) {
            var k :| 0 <= k < |tail| && tail[k].id == id;
            assert cs[k + 1].id == id;
          }
        }
      }
    }
  }

  /** After an upsert into a collection without repeated ids, the upserted
      id occurs exactly once, and that one entry is the upserted record. */
  lemma UpsertLeavesOneEntry(cs: seq<Conversation>, c: Conversation)
    requires DistinctIds(cs)
    ensures Count(Upsert(cs, c), c.id) == 1
    ensures forall j :: 0 <= j < |Upsert(cs, c)| && Upsert(cs, c)[j].id == c.id ==>
              Upsert(cs, c)[j] == c
  {
    var r := Upsert(cs, c);
    DistinctCount(r, c.id);
    match FindIndex(cs, c.id)
    case Some(i) =>
      assert IsFirstIndex(cs, c.id, i);
      assert r[i] == c;
    case None =>
      assert r[|cs|] == c;
  }
}
