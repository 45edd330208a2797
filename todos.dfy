/**
 * The todo table: records `{id, userId, text, completed}` kept in insertion
 * order, and the owner-scoped queries the routes run over it (`filter`,
 * `findIndex` and the object spread of an update).
 */
module Todos {
  import opened Wrappers

  datatype Todo = Todo(id: int, userId: int, text: string, completed: bool)

  /**
   * A request body applied by an update: each field the body carries
   * overwrites the stored one, including `id` and `userId`.
   */
  datatype Patch = Patch(id: Option<int>, userId: Option<int>, text: Option<string>, completed: Option<bool>)

  /** `{ ...p, ...q }`: two request bodies spread one after the other. */
  function Then(p: Patch, q: Patch): Patch
  {
    Patch(if q.id.Some? then q.id else p.id,
          if q.userId.Some? then q.userId else p.userId,
          if q.text.Some? then q.text else p.text,
          if q.completed.Some? then q.completed else p.completed)
  }

  /** A stored record seen as a body that carries every field. */
  function AsPatch(t: Todo): Patch
  {
    Patch(Some(t.id), Some(t.userId), Some(t.text), Some(t.completed))
  }

  /**
   * `{ ...t, ...p }`: the record is the spread of the stored record, as a
   * full body, followed by the request body.
   */
  function Merge(t: Todo, p: Patch): (r: Todo)
    ensures AsPatch(r) == Then(AsPatch(t), p)
  {
    Todo(if p.id.Some? then p.id.value else t.id,
         if p.userId.Some? then p.userId.value else t.userId,
         if p.text.Some? then p.text.value else t.text,
         if p.completed.Some? then p.completed.value else t.completed)
  }

  /** An empty body leaves the record as it was. */
  lemma MergeEmpty(t: Todo)
    ensures Merge(t, Patch(None, None, None, None)) == t
  {
  }

  /** Sending the same body twice has the effect of sending it once. */
  lemma MergeIdempotent(t: Todo, p: Patch)
    ensures Merge(Merge(t, p), p) == Merge(t, p)
  {
  }

  /** Two updates in a row are one update with the spread of their bodies. */
  lemma MergeThen(t: Todo, p: Patch, q: Patch)
    ensures Merge(Merge(t, p), q) == Merge(t, Then(p, q))
  {
  }

  /** The client's `{completed: b}` body changes the flag and nothing else. */
  lemma MergeCompletedOnly(t: Todo, b: bool)
    ensures Merge(t, Patch(None, None, None, Some(b))) == t.(completed := b)
  {
  }

  /** A body carrying `userId` hands the record to that user. */
  lemma MergeReassigns(t: Todo, p: Patch, other: int)
    requires p.userId == Some(other)
    ensures Merge(t, p).userId == other
  {
  }

  /**
   * `todo.id === id && todo.userId === req.user.id`, with the path id already
   * parsed: `None` is the `NaN` of an unparsable id, equal to nothing.
   */
  predicate Matches(t: Todo, id: Option<int>, owner: int)
    ensures Matches(t, id, owner) ==> t.userId == owner
    ensures id.None? ==> !Matches(t, id, owner)
  {
    id == Some(t.id) && t.userId == owner
  }

  /** `todos.filter(todo => todo.userId === owner)`. */
  function ListOwned(s: seq<Todo>, owner: int): (r: seq<Todo>)
    ensures |r| <= |s|
    ensures forall t :: t in r <==> t in s && t.userId == owner
  {
    if s == [] then []
    else (if s[0].userId == owner then [s[0]] else []) + ListOwned(s[1..], owner)
  }

  /** Listing keeps storage order: it distributes over concatenation. */
  lemma {:induction false} ListOwnedAppend(a: seq<Todo>, b: seq<Todo>, owner: int)
    ensures ListOwned(a + b, owner) == ListOwned(a, owner) + ListOwned(b, owner)
  {
    if a == [] {
      assert a + b == b;
    } else {
      assert (a + b)[0] == a[0] && (a + b)[1..] == a[1..] + b;
      var head := if a[0].userId == owner then [a[0]] else [];
      assert ListOwned(a + b, owner) == head + ListOwned(a[1..] + b, owner);
      assert ListOwned(a, owner) == head + ListOwned(a[1..], owner);
      ListOwnedAppend(a[1..], b, owner);
    }
  }

  /** Listing the owner's todos of a table that holds only theirs gives the whole table. */
  lemma {:induction false} ListOwnedAll(s: seq<Todo>, owner: int)
    requires forall i | 0 <= i < |s| :: s[i].userId == owner
    ensures ListOwned(s, owner) == s
  {
    if s != [] {
      ListOwnedAll(s[1..], owner);
    }
  }

  /**
   * After an append, the new record is last in its owner's list and every
   * other user's list is unchanged.
   */
  lemma ListOwnedAfterAppend(s: seq<Todo>, t: Todo, owner: int)
    ensures ListOwned(s + [t], owner) ==
            if t.userId == owner then ListOwned(s, owner) + [t] else ListOwned(s, owner)
  {
    ListOwnedAppend(s, [t], owner);
    assert [t][1..] == [];
  }

  /**
   * `todos.findIndex(todo => Matches(todo, id, owner))`: the first matching
   * index, or -1 when no record matches.
   */
  function FindIndex(s: seq<Todo>, id: Option<int>, owner: int): (r: int)
    ensures -1 <= r < |s|
    ensures r == -1 <==> forall i | 0 <= i < |s| :: !Matches(s[i], id, owner)
    ensures 0 <= r ==> Matches(s[r], id, owner)
    ensures forall i | 0 <= i < r :: !Matches(s[i], id, owner)
  {
    if s == [] then -1
    else if Matches(s[0], id, owner) then 0
    else
      var k := FindIndex(s[1..], id, owner);
      if k == -1 then -1 else k + 1
  }

  /** `todos.filter(todo => !Matches(todo, id, owner))`. */
  function Without(s: seq<Todo>, id: Option<int>, owner: int): (r: seq<Todo>)
    ensures |r| <= |s|
  {
    if s == [] then []
    else (if Matches(s[0], id, owner) then [] else [s[0]]) + Without(s[1..], id, owner)
  }

  /** Delete keeps exactly the records that do not match both id and owner. */
  lemma {:induction false} WithoutContents(s: seq<Todo>, id: Option<int>, owner: int)
    ensures forall t :: t in Without(s, id, owner) <==> t in s && !Matches(t, id, owner)
  {
    if s != [] {
      WithoutContents(s[1..], id, owner);
      assert s == [s[0]] + s[1..];
    }
  }

  /** Deleting keeps the relative order of what remains. */
  lemma {:induction false} WithoutAppend(a: seq<Todo>, b: seq<Todo>, id: Option<int>, owner: int)
    ensures Without(a + b, id, owner) == Without(a, id, owner) + Without(b, id, owner)
  {
    if a == [] {
      assert a + b == b;
    } else {
      var ab := a + b;
      assert ab[0] == a[0] && ab[1..] == a[1..] + b;
      WithoutAppend(a[1..], b, id, owner);
      if Matches(a[0], id, owner) {
        assert Without(ab, id, owner) == Without(a[1..] + b, id, owner);
      } else {
        assert Without(ab, id, owner) == [a[0]] + Without(a[1..] + b, id, owner);
      }
    }
  }

  /** Deleting an id the owner does not hold leaves the table as it was. */
  lemma {:induction false} WithoutNoMatch(s: seq<Todo>, id: Option<int>, owner: int)
    requires forall i | 0 <= i < |s| :: !Matches(s[i], id, owner)
    ensures Without(s, id, owner) == s
  {
    if s != [] {
      WithoutNoMatch(s[1..], id, owner);
      assert [s[0]] + s[1..] == s;
    }
  }

  /** An unparsable path id deletes nothing. */
  lemma WithoutUnparsable(s: seq<Todo>, owner: int)
    ensures Without(s, None, owner) == s
  {
    WithoutNoMatch(s, None, owner);
  }

  /** Deleting twice leaves the same table as deleting once. */
  lemma WithoutIdempotent(s: seq<Todo>, id: Option<int>, owner: int)
    ensures Without(Without(s, id, owner), id, owner) == Without(s, id, owner)
  {
    var r := Without(s, id, owner);
    WithoutContents(s, id, owner);
    forall i | 0 <= i < |r|
      ensures !Matches(r[i], id, owner)
    {
      assert r[i] in r;
    }
    WithoutNoMatch(r, id, owner);
  }

  /** A delete by one owner never removes or reorders another user's todos. */
  lemma {:induction false} WithoutIsolation(s: seq<Todo>, id: Option<int>, owner: int, other: int)
    requires other != owner
    ensures ListOwned(Without(s, id, owner), other) == ListOwned(s, other)
  {
    if s != [] {
      WithoutIsolation(s[1..], id, owner, other);
      var head := if Matches(s[0], id, owner) then [] else [s[0]];
      ListOwnedAppend(head, Without(s[1..], id, owner), other);
      if head != [] {
        assert head[1..] == [];
      }
    }
  }

  /** After a delete, the owner's list is their old list without the id. */
  lemma {:induction false} WithoutOwnList(s: seq<Todo>, id: Option<int>, owner: int)
    ensures ListOwned(Without(s, id, owner), owner) == Without(ListOwned(s, owner), id, owner)
  {
    if s != [] {
      WithoutOwnList(s[1..], id, owner);
      var head := if Matches(s[0], id, owner) then [] else [s[0]];
      var owned := if s[0].userId == owner then [s[0]] else [];
      ListOwnedAppend(head, Without(s[1..], id, owner), owner);
      WithoutAppend(owned, ListOwned(s[1..], owner), id, owner);
      if head != [] {
        assert head[1..] == [];
      }
      if owned != [] {
        assert owned[1..] == [];
      }
    }
  }
}
