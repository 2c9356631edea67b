/**
 * The server's todo table as a value: what each request handler of the
 * FastAPI service does to the stored sequence of todos. The handlers look a
 * todo up by a linear scan and act on the FIRST entry whose id matches; ids
 * are generated by the server but never checked for uniqueness, so every
 * statement here is made in terms of that first match.
 */
module TodoTable {
  import opened Records

  /** Some stored todo carries `id`. */
  predicate Has(s: seq<Todo>, id: string) {
    exists k :: 0 <= k < |s| && s[k].id == id
  }

  /** Two tables of the same length whose entries carry the same ids, position by position. */
  predicate SameIds(s: seq<Todo>, t: seq<Todo>) {
    |s| == |t| && forall k :: 0 <= k < |s| ==> s[k].id == t[k].id
  }

  /** Where a front-to-back scan for `id` stops: the first entry with that id, if any. */
  function FirstIndex(s: seq<Todo>, id: string): (r: Option<nat>)
    ensures r.None? <==> !Has(s, id)
    ensures r.Some? ==> r.value < |s| && s[r.value].id == id
    ensures r.Some? ==> forall k :: 0 <= k < r.value ==> s[k].id != id
  {
    if |s| == 0 then None
    else if s[0].id == id then Some(0)
    else
      match FirstIndex(s[1..], id)
      case None => None
      case Some(i) => Some(i + 1)
  }

  /**
   * The stored record after an update request: the stored id is kept and the
   * request's own id is ignored; title, completion and assignee are replaced.
   */
  function Overwrite(stored: Todo, request: Todo): (r: Todo)
    ensures r.id == stored.id
    ensures r.title == request.title && r.completed == request.completed && r.userId == request.userId
  {
    stored.(title := request.title, completed := request.completed, userId := request.userId)
  }

  /** The table after `PUT /todos/{id}`, or `None` for the 404 answer. */
  function AfterUpdate(s: seq<Todo>, id: string, request: Todo): (r: Option<seq<Todo>>)
    ensures r.None? <==> !Has(s, id)
    ensures r.Some? ==> SameIds(r.value, s)
    ensures r.Some? ==> forall k :: 0 <= k < |s| && k != FirstIndex(s, id).value ==> r.value[k] == s[k]
    ensures r.Some? ==> var i := FirstIndex(s, id).value; r.value[i] == Overwrite(s[i], request)
  {
    match FirstIndex(s, id)
    case None => None
    case Some(i) => Some(s[i := Overwrite(s[i], request)])
  }

  /** The table after `DELETE /todos/{id}`, or `None` for the 404 answer. */
  function AfterDelete(s: seq<Todo>, id: string): (r: Option<seq<Todo>>)
    ensures r.None? <==> !Has(s, id)
    ensures r.Some? ==> |r.value| == |s| - 1
    ensures r.Some? ==> var i := FirstIndex(s, id).value;
      r.value[..i] == s[..i] && r.value[i..] == s[i + 1..]
  {
    match FirstIndex(s, id)
    case None => None
    case Some(i) => Some(s[..i] + s[i + 1..])
  }

  /** How many stored todos carry `id`. */
  function CountId(s: seq<Todo>, id: string): (n: nat)
    ensures n <= |s|
    ensures n == 0 <==> !Has(s, id)
  {
    if |s| == 0 then 0 else (if s[0].id == id then 1 else 0) + CountId(s[1..], id)
  }

  lemma {:induction false} CountIdConcat(a: seq<Todo>, b: seq<Todo>, id: string)
    ensures CountId(a + b, id) == CountId(a, id) + CountId(b, id)
  {
    if |a| == 0 {
      assert a + b == b;
    } else {
      assert (a + b)[1..] == a[1..] + b;
      CountIdConcat(a[1..], b, id);
    }
  }

  /** A FirstIndex lookup depends on the ids alone. */
  lemma FirstIndexByIds(s: seq<Todo>, t: seq<Todo>, id: string)
    requires SameIds(s, t)
    ensures FirstIndex(s, id) == FirstIndex(t, id)
  {
    var a, b := FirstIndex(s, id), FirstIndex(t, id);
    if a.Some? {
      assert t[a.value].id == id;
    }
    if b.Some? {
      assert s[b.value].id == id;
    }
  }

  /** Deleting removes exactly one entry with the id and no entry with any other id. */
  lemma DeleteCount(s: seq<Todo>, id: string, other: string)
    requires AfterDelete(s, id).Some?
    ensures CountId(AfterDelete(s, id).value, id) == CountId(s, id) - 1
    ensures other != id ==> CountId(AfterDelete(s, id).value, other) == CountId(s, other)
  {
    var i := FirstIndex(s, id).value;
    assert s == s[..i] + ([s[i]] + s[i + 1..]);
    CountIdConcat(s[..i], [s[i]] + s[i + 1..], id);
    CountIdConcat([s[i]], s[i + 1..], id);
    CountIdConcat(s[..i], s[i + 1..], id);
    CountIdConcat(s[..i], [s[i]] + s[i + 1..], other);
    CountIdConcat([s[i]], s[i + 1..], other);
    CountIdConcat(s[..i], s[i + 1..], other);
  }

  /** Deleting removes one occurrence of the first matching record and keeps every other record. */
  lemma DeleteMultiset(s: seq<Todo>, id: string)
    requires AfterDelete(s, id).Some?
    ensures var i := FirstIndex(s, id).value;
      multiset(AfterDelete(s, id).value) + multiset{s[i]} == multiset(s)
  {
    var i := FirstIndex(s, id).value;
    RemoveAtMultiset(s, i);
  }

  lemma RemoveAtMultiset(s: seq<Todo>, i: nat)
    requires i < |s|
    ensures multiset(s[..i] + s[i + 1..]) + multiset{s[i]} == multiset(s)
  {
    assert s == s[..i] + [s[i]] + s[i + 1..];
  }

  /** Repeating the same update request changes nothing further. */
  lemma UpdateIdempotent(s: seq<Todo>, id: string, request: Todo)
    requires AfterUpdate(s, id, request).Some?
    ensures AfterUpdate(AfterUpdate(s, id, request).value, id, request) == AfterUpdate(s, id, request)
  {
    var s' := AfterUpdate(s, id, request).value;
    FirstIndexByIds(s, s', id);
    var i := FirstIndex(s, id).value;
    assert s'[i := Overwrite(s'[i], request)] == s';
  }

  /**
   * Create followed by delete of the generated id restores the table, provided
   * the generated id was not in use (the server does not check this).
   */
  lemma DeleteAfterCreate(s: seq<Todo>, todo: Todo, newId: string)
    requires !Has(s, newId)
    ensures AfterDelete(s + [todo.(id := newId)], newId) == Some(s)
  {
    var s' := s + [todo.(id := newId)];
    assert s'[|s|].id == newId;
    var i := FirstIndex(s', newId).value;
    assert forall k :: 0 <= k < |s| ==> s'[k] == s[k];
    assert i == |s|;
    assert s'[..i] + s'[i + 1..] == s;
  }

  /** After a create, a lookup of an id that was present, or differs from the new one, is unchanged. */
  lemma {:induction false} CreateKeepsLookups(s: seq<Todo>, todo: Todo, newId: string, id: string)
    requires Has(s, id) || id != newId
    ensures FirstIndex(s + [todo.(id := newId)], id) == FirstIndex(s, id)
  {
    var s' := s + [todo.(id := newId)];
    if |s| == 0 {
      assert s' == [todo.(id := newId)];
    } else if s[0].id != id {
      assert s'[1..] == s[1..] + [todo.(id := newId)];
      if Has(s, id) {
        var k :| 0 <= k < |s| && s[k].id == id;
        assert s[1..][k - 1].id == id;
      }
      CreateKeepsLookups(s[1..], todo, newId, id);
    }
  }
}
