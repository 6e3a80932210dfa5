/** The escalation_config table and the endpoints that edit it. */
module ChainConfig {
  import opened Basics
  import opened EscalationChain

  datatype Row = Row(id: nat, position: int, userId: int)

  datatype EditResult = Saved | PositionTaken | UserTaken | NotFound | EmptyChain | DuplicateUser | UnknownUser

  ghost predicate UniqueRows(rows: seq<Row>) {
    forall i, j | 0 <= i < j < |rows| ::
      rows[i].position != rows[j].position && rows[i].userId != rows[j].userId
  }

  // ----- ORDER BY position -----

  function Insert(e: Entry, sorted: seq<Entry>): seq<Entry> {
    if sorted == [] || e.position <= sorted[0].position then [e] + sorted
    else [sorted[0]] + Insert(e, sorted[1..])
  }

  function ReadChain(rows: seq<Row>): seq<Entry> {
    if rows == [] then []
    else Insert(Entry(rows[0].position, rows[0].userId), ReadChain(rows[1..]))
  }

  lemma {:induction false} InsertKeepsEntries(e: Entry, sorted: seq<Entry>)
    ensures multiset(Insert(e, sorted)) == multiset{e} + multiset(sorted)
    ensures forall x :: x in Insert(e, sorted) <==> x == e || x in sorted
  {
    if !(sorted == [] || e.position <= sorted[0].position) {
      InsertKeepsEntries(e, sorted[1..]);
      assert sorted == [sorted[0]] + sorted[1..];
    }
    var m := multiset(Insert(e, sorted));
    assert m == multiset{e} + multiset(sorted);
    forall x ensures x in Insert(e, sorted) <==> x == e || x in sorted {
      assert x in Insert(e, sorted) <==> x in m;
    }
  }

  lemma ConsIsChain(e: Entry, chain: seq<Entry>)
    requires IsChain(chain)
    requires forall x | x in chain :: e.position < x.position && e.userId != x.userId
    ensures IsChain([e] + chain)
  {
  }

  lemma TailIsChain(chain: seq<Entry>)
    requires IsChain(chain) && chain != []
    ensures IsChain(chain[1..])
    ensures forall x | x in chain[1..] :: chain[0].position < x.position && chain[0].userId != x.userId
  {
    OrderedTail(chain);
  }

  lemma {:induction false} InsertKeepsChain(e: Entry, sorted: seq<Entry>)
    requires IsChain(sorted)
    requires forall x | x in sorted :: x.position != e.position && x.userId != e.userId
    ensures IsChain(Insert(e, sorted))
  {
    if sorted == [] {
    } else {
      TailIsChain(sorted);
      if e.position <= sorted[0].position {
        ConsIsChain(e, sorted);
      } else {
        InsertKeepsChain(e, sorted[1..]);
        InsertKeepsEntries(e, sorted[1..]);
        ConsIsChain(sorted[0], Insert(e, sorted[1..]));
      }
    }
  }

  /** Rows with unique positions and users are read as a proper chain holding exactly those rows. */
  lemma {:induction false} ReadChainIsChain(rows: seq<Row>)
    requires UniqueRows(rows)
    ensures IsChain(ReadChain(rows))
    ensures |ReadChain(rows)| == |rows|
    ensures forall e :: e in ReadChain(rows) <==> exists r | r in rows :: e == Entry(r.position, r.userId)
  {
    if rows != [] {
      var tail, e := rows[1..], Entry(rows[0].position, rows[0].userId);
      assert rows == [rows[0]] + tail;
      forall i, j | 0 <= i < j < |tail|
        ensures tail[i].position != tail[j].position && tail[i].userId != tail[j].userId
      {
        assert tail[i] == rows[i + 1] && tail[j] == rows[j + 1];
      }
      ReadChainIsChain(tail);
      forall x | x in ReadChain(tail)
        ensures x.position != e.position && x.userId != e.userId
      {
        var r :| r in tail && x == Entry(r.position, r.userId);
        var i :| 0 <= i < |tail| && tail[i] == r;
        assert rows[i + 1] == r;
      }
      InsertKeepsChain(e, ReadChain(tail));
      InsertKeepsEntries(e, ReadChain(tail));
      assert |Insert(e, ReadChain(tail))| == |multiset(Insert(e, ReadChain(tail)))|;
      assert |multiset(ReadChain(tail))| == |ReadChain(tail)|;
    }
  }

  /** A list is as long as the set of its elements exactly when no element is repeated. */
  lemma {:induction false} SetSizeTest(ids: seq<int>)
    ensures |set u | u in ids| <= |ids|
    ensures |set u | u in ids| == |ids| <==> forall i, j | 0 <= i < j < |ids| :: ids[i] != ids[j]
  {
    if ids != [] {
      var last, init := ids[|ids| - 1], ids[..|ids| - 1];
      SetSizeTest(init);
      var all, some := set u | u in ids, set u | u in init;
      assert ids == init + [last];
      assert all == some + {last};
      if last in init {
        var i :| 0 <= i < |init| && init[i] == last;
        assert ids[i] == ids[|ids| - 1];
      } else {
        assert forall i | 0 <= i < |init| :: init[i] != last;
        assert forall i, j | 0 <= i < j < |init| :: init[i] == ids[i] && init[j] == ids[j];
      }
    }
  }

  class ChainTable {
    var rows: seq<Row>
    var nextId: nat

    ghost predicate Valid()
      reads this
    {
      && UniqueRows(rows)
      && forall r | r in rows :: r.id < nextId
    }

    constructor ()
      ensures Valid() && rows == []
    {
      rows, nextId := [], 0;
    }

    method AddEntry(position: int, userId: int) returns (result: EditResult)
      requires Valid()
      modifies this
      ensures Valid()
      ensures result == if exists r | r in old(rows) :: r.position == position then PositionTaken
                        else if exists r | r in old(rows) :: r.userId == userId then UserTaken
                        else Saved
      ensures rows == if result == Saved then old(rows) + [Row(old(nextId), position, userId)] else old(rows)
    {
      if exists r | r in rows :: r.position == position {
        return PositionTaken;
      }
      if exists r | r in rows :: r.userId == userId {
        return UserTaken;
      }
      rows := rows + [Row(nextId, position, userId)];
      nextId := nextId + 1;
      return Saved;
    }

    method DeleteEntry(id: nat) returns (result: EditResult)
      requires Valid()
      modifies this`rows
      ensures Valid()
      ensures result == if exists r | r in old(rows) :: r.id == id then Saved else NotFound
      ensures forall r :: r in rows <==> r in old(rows) && (result == NotFound || r.id != id)
    {
      if !exists r | r in rows :: r.id == id {
        return NotFound;
      }
      var kept: seq<Row> := [];
      for i := 0 to |rows|
        invariant rows == old(rows)
        invariant UniqueRows(kept + rows[i..])
        invariant forall r :: r in kept <==> r in rows[..i] && r.id != id
      {
        assert rows[i..] == [rows[i]] + rows[i + 1..];
        assert kept + rows[i..] == kept + [rows[i]] + rows[i + 1..];
        if rows[i].id != id {
          kept := kept + [rows[i]];
        } else {
          DropOne(kept, rows[i..]);
        }
        assert rows[..i + 1] == rows[..i] + [rows[i]];
      }
      assert kept + rows[|rows|..] == kept && rows[..|rows|] == rows;
      rows := kept;
      return Saved;
    }

    /** Replaces the whole chain; positions are numbered from 1 whatever the table held before. */
    method ReplaceAll(userIds: seq<int>, known: set<int>) returns (result: EditResult)
      requires Valid()
      modifies this
      ensures Valid()
      ensures result == if userIds == [] then EmptyChain
                        else if exists i, j | 0 <= i < j < |userIds| :: userIds[i] == userIds[j] then DuplicateUser
                        else if exists u | u in userIds :: u !in known then UnknownUser
                        else Saved
      ensures result != Saved ==> rows == old(rows)
      ensures result == Saved ==> rows == seq(|userIds|, i requires 0 <= i < |userIds| =>
                                                           Row(old(nextId) + i, i + 1, userIds[i]))
    {
      if userIds == [] {
        return EmptyChain;
      }
      SetSizeTest(userIds);
      if |userIds| != |set u | u in userIds| {
        return DuplicateUser;
      }
      for i := 0 to |userIds|
        invariant forall j | 0 <= j < i :: userIds[j] in known
      {
        if userIds[i] !in known {
          return UnknownUser;
        }
      }
      ghost var first := nextId;
      rows := [];
      for i := 0 to |userIds|
        invariant nextId == first + i && |rows| == i
        invariant forall j | 0 <= j < i :: rows[j] == Row(first + j, j + 1, userIds[j])
      {
        rows := rows + [Row(nextId, i + 1, userIds[i])];
        nextId := nextId + 1;
      }
      return Saved;
    }
  }

  lemma DropOne(kept: seq<Row>, rest: seq<Row>)
    requires rest != [] && UniqueRows(kept + rest)
    ensures UniqueRows(kept + rest[1..])
  {
    var all, less := kept + rest, kept + rest[1..];
    forall i, j | 0 <= i < j < |less|
      ensures less[i].position != less[j].position && less[i].userId != less[j].userId
    {
      var i', j' := if i < |kept| then i else i + 1, if j < |kept| then j else j + 1;
      assert less[i] == all[i'] && less[j] == all[j'];
    }
  }
}
