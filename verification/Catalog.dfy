/** The order of the questions of a catalog list: positions stay 0, 1, 2, ... under sequential edits. */
module Catalog {
  import opened Domain
  import opened Order

  datatype Row = Row(list: string, pos: int, created: int)

  type Rows = map<string, Row>

  /** ids are the questions of the list, and the position of each is its index. */
  ghost predicate Listed(rows: Rows, list: string, ids: seq<string>) {
    && (forall i :: 0 <= i < |ids| ==> ids[i] in rows && rows[ids[i]].list == list && rows[ids[i]].pos == i)
    && (forall id :: id in rows && rows[id].list == list ==> 0 <= rows[id].pos < |ids| && ids[rows[id].pos] == id)
  }

  function InList(rows: Rows, list: string): set<string> {
    set id | id in rows && rows[id].list == list
  }

  ghost predicate OthersKept(before: Rows, after: Rows, list: string) {
    forall id :: (id in before && before[id].list != list) || (id in after && after[id].list != list) ==>
      id in before && id in after && after[id] == before[id]
  }

  /** The same rows, but for their positions. */
  ghost predicate OnlyMoved(before: Rows, after: Rows) {
    after.Keys == before.Keys && forall id :: id in before ==> after[id] == before[id].(pos := after[id].pos)
  }

  // ----- permutations

  predicate NoDup(s: seq<string>) {
    forall i, j :: 0 <= i < j < |s| ==> s[i] != s[j]
  }

  function Elements(s: seq<string>): set<string> { set x | x in s }

  lemma {:induction false} SizeOfElements(s: seq<string>)
    ensures |Elements(s)| <= |s|
    ensures |Elements(s)| == |s| <==> NoDup(s)
  {
    if s != [] {
      var rest, last := s[..|s| - 1], s[|s| - 1];
      assert s == rest + [last];
      SizeOfElements(rest);
      if last in rest {
        assert Elements(s) == Elements(rest);
        var i :| 0 <= i < |rest| && rest[i] == last;
        assert s[i] == s[|s| - 1];
      } else {
        assert Elements(s) == Elements(rest) + {last};
        if NoDup(rest) {
          assert NoDup(s);
        } else {
          var i, j :| 0 <= i < j < |rest| && rest[i] == rest[j];
          assert s[i] == s[j];
        }
      }
    }
  }

  lemma {:induction false} CountWithoutDup(s: seq<string>, x: string)
    ensures NoDup(s) ==> multiset(s)[x] == if x in s then 1 else 0
  {
    if s != [] {
      var rest, last := s[..|s| - 1], s[|s| - 1];
      assert s == rest + [last];
      CountWithoutDup(rest, x);
    }
  }

  /** Distinct ids drawn from a collection of the same length are that collection: no room is left for another. */
  lemma Pigeonhole(ids: seq<string>, questions: seq<string>)
    requires NoDup(ids) && |ids| == |questions| && forall id :: id in ids ==> id in questions
    ensures NoDup(questions) && multiset(ids) == multiset(questions)
  {
    SizeOfElements(ids);
    SizeOfElements(questions);
    SubsetOfSameSize(Elements(ids), Elements(questions));
    forall x ensures multiset(ids)[x] == multiset(questions)[x] {
      CountWithoutDup(ids, x);
      CountWithoutDup(questions, x);
      assert x in Elements(ids) <==> x in Elements(questions);
    }
  }

  lemma {:induction false} SubsetOfSameSize(s: set<string>, t: set<string>)
    requires s <= t
    ensures |s| <= |t| && (|s| == |t| ==> s == t)
  {
    if s != {} {
      var x :| x in s;
      SubsetOfSameSize(s - {x}, t - {x});
    }
  }

  /** Whether ids names each of the questions exactly once. */
  method IsPermutation(ids: seq<string>, questions: seq<string>) returns (b: bool)
    ensures b <==> NoDup(questions) && multiset(ids) == multiset(questions)
  {
    if |ids| != |questions| {
      assert |multiset(ids)| != |multiset(questions)|;
      return false;
    }
    var remaining := {};
    for i := 0 to |questions|
      invariant remaining == Elements(questions[..i])
    {
      assert questions[..i + 1] == questions[..i] + [questions[i]];
      remaining := remaining + {questions[i]};
    }
    assert questions[..|questions|] == questions;
    for i := 0 to |ids|
      invariant remaining == Elements(questions) - Elements(ids[..i])
      invariant NoDup(ids[..i]) && Elements(ids[..i]) <= Elements(questions)
    {
      assert ids[..i + 1] == ids[..i] + [ids[i]];
      if ids[i] !in remaining {
        UnknownOrDuplicate(ids, questions, i);
        return false;
      }
      assert ids[i] !in ids[..i];
      remaining := remaining - {ids[i]};
    }
    assert ids[..|ids|] == ids;
    forall id | id in ids ensures id in questions { assert id in Elements(questions); }
    Pigeonhole(ids, questions);
    return true;
  }

  lemma UnknownOrDuplicate(ids: seq<string>, questions: seq<string>, i: nat)
    requires i < |ids| && (ids[i] !in questions || ids[i] in ids[..i])
    ensures !(NoDup(questions) && multiset(ids) == multiset(questions))
  {
    if ids[i] !in questions {
      assert ids[i] in multiset(ids) && ids[i] !in multiset(questions);
    } else {
      assert ids == ids[..i] + [ids[i]] + ids[i + 1..];
      assert multiset(ids) == multiset(ids[..i]) + multiset{ids[i]} + multiset(ids[i + 1..]);
      assert multiset(ids)[ids[i]] >= 2;
      CountWithoutDup(questions, ids[i]);
    }
  }

  // ----- order of rows

  /** By position, then by creation; ties, which SQL leaves open, by id. */
  predicate ByPosition(rows: Rows, a: string, b: string) {
    var (p, c), (q, d) := Key(rows, a), Key(rows, b);
    p < q || (p == q && (c < d || (c == d && Less(a, b))))
  }

  function Key(rows: Rows, id: string): (int, int) {
    if id in rows then (rows[id].pos, rows[id].created) else (0, 0)
  }

  lemma ByPositionIsStrictTotal(rows: Rows, before: (string, string) -> bool)
    requires forall a, b :: before(a, b) == ByPosition(rows, a, b)
    ensures StrictTotal(before)
  {
    LessIsStrictTotal();
    forall x, y, z | before(x, y) && before(y, z) ensures before(x, z) {
      assert ByPosition(rows, x, y) && ByPosition(rows, y, z);
    }
    forall x, y ensures x == y || before(x, y) || before(y, x) {
      assert Key(rows, x) != Key(rows, y) || x == y || Less(x, y) || Less(y, x);
    }
  }

  predicate InOrder(rows: Rows, ids: seq<string>) {
    forall i, j :: 0 <= i < j < |ids| ==> ByPosition(rows, ids[i], ids[j])
  }

  /** ids are the rows of the list in order. */
  ghost predicate Ordered(rows: Rows, list: string, ids: seq<string>) {
    && InOrder(rows, ids)
    && (forall id :: id in ids <==> id in InList(rows, list))
  }

  /** By position first; where positions clash, the row created first comes first. */
  lemma OrderOfTwo(rows: Rows, list: string, ids: seq<string>, i: nat, j: nat)
    requires Ordered(rows, list, ids) && i < |ids| && j < |ids|
    ensures ids[i] in rows && ids[j] in rows
    ensures
      var a, b := rows[ids[i]], rows[ids[j]];
      a.pos < b.pos || (a.pos == b.pos && a.created < b.created) ==> i < j
  {
    assert ids[i] in ids && ids[j] in ids;
    if j < i { assert ByPosition(rows, ids[j], ids[i]); }
  }

  lemma OrderIsUnique(rows: Rows, list: string, a: seq<string>, b: seq<string>)
    requires Ordered(rows, list, a) && Ordered(rows, list, b)
    ensures a == b
  {
    var before := (x, y) => ByPosition(rows, x, y);
    ByPositionIsStrictTotal(rows, before);
    assert Sorted(before, a) && Sorted(before, b);
    ListingIsUnique(before, a, b, InList(rows, list));
  }

  /** Where positions are contiguous, they are the order. */
  lemma ListedIsOrdered(rows: Rows, list: string, ids: seq<string>)
    requires Listed(rows, list, ids)
    ensures Ordered(rows, list, ids)
  {
    forall id ensures id in ids <==> id in InList(rows, list) {
      if id in InList(rows, list) { assert ids[rows[id].pos] == id; }
    }
  }

  function Without(ids: seq<string>, id: string): seq<string> {
    if ids == [] then [] else if ids[0] == id then ids[1..] else [ids[0]] + Without(ids[1..], id)
  }

  lemma {:induction false} WithoutKeepsOrder(rows: Rows, ids: seq<string>, id: string)
    requires InOrder(rows, ids)
    ensures InOrder(rows, Without(ids, id))
    ensures forall x :: x in Without(ids, id) <==> x in ids && x != id
  {
    if ids != [] {
      forall j | 0 < j < |ids| ensures ids[j] != ids[0] {
        assert ByPosition(rows, ids[0], ids[j]);
        LessIrreflexive(ids[0]);
      }
      WithoutKeepsOrder(rows, ids[1..], id);
      var rest := Without(ids[1..], id);
      forall j | 0 <= j < |rest| ensures ByPosition(rows, ids[0], rest[j]) {
        assert rest[j] in ids[1..];
      }
    }
  }

  /** Removing a row leaves the order of the others. */
  lemma WithoutIsOrdered(rows: Rows, list: string, ids: seq<string>, id: string)
    requires Ordered(rows, list, ids)
    ensures Ordered(rows - {id}, list, Without(ids, id))
  {
    WithoutKeepsOrder(rows, ids, id);
    var rest, left := Without(ids, id), rows - {id};
    forall i, j | 0 <= i < j < |rest| ensures ByPosition(left, rest[i], rest[j]) {
      assert rest[i] in rest && rest[j] in rest;
      SamePosition(rows, left, rest[i], rest[j]);
    }
  }

  lemma SamePosition(rows: Rows, rows': Rows, a: string, b: string)
    requires Key(rows, a) == Key(rows', a) && Key(rows, b) == Key(rows', b)
    ensures ByPosition(rows, a, b) == ByPosition(rows', a, b)
  {
  }

  lemma WithoutStranger(ids: seq<string>, id: string)
    requires id !in ids
    ensures Without(ids, id) == ids
  {
  }

  // ----- edits

  datatype Edit = Add(id: string) | Reorder(order: seq<string>) | Delete(id: string)

  /** What an edit does to the order of a list; one that is refused does nothing. `taken` are all ids in use. */
  function Edited(ids: seq<string>, taken: set<string>, e: Edit): seq<string> {
    match e
    case Add(id) => if id in taken then ids else ids + [id]
    case Reorder(order) => if multiset(order) == multiset(ids) then order else ids
    case Delete(id) => Without(ids, id)
  }

  /** The order of the list and the ids in use after a sequence of edits of the list. */
  function Replayed(ids: seq<string>, taken: set<string>, edits: seq<Edit>): (seq<string>, set<string>) {
    if edits == [] then (ids, taken)
    else
      var (order, used) := Replayed(ids, taken, edits[..|edits| - 1]);
      var e := edits[|edits| - 1];
      (Edited(order, used, e),
       match e
       case Add(id) => used + {id}
       case Reorder(_) => used
       case Delete(id) => if id in order then used - {id} else used)
  }

  class QuestionTable {
    var rows: Rows

    constructor ()
      ensures rows == map[]
    {
      rows := map[];
    }

    /** SELECT ... WHERE question_list_id = list ORDER BY order_index. */
    method ListQuestions(list: string) returns (ids: seq<string>)
      ensures Ordered(rows, list, ids)
    {
      var rs := rows;
      var before := (x, y) => ByPosition(rs, x, y);
      ByPositionIsStrictTotal(rs, before);
      ids := [];
      var rest := InList(rows, list);
      while rest != {}
        invariant rest <= InList(rows, list)
        invariant Lists(before, ids, InList(rows, list) - rest)
        decreases |rest|
      {
        var id :| id in rest;
        InsertLists(before, id, ids, InList(rows, list) - rest);
        assert InList(rows, list) - rest + {id} == InList(rows, list) - (rest - {id});
        ids, rest := Insert(before, id, ids), rest - {id};
      }
      forall i, j | 0 <= i < j < |ids| ensures ByPosition(rows, ids[i], ids[j]) {
        assert before(ids[i], ids[j]);
      }
    }

    /** Gives the rows of the list the positions they have in ids. */
    method Number(list: string, ids: seq<string>)
      requires NoDup(ids) && forall id :: id in ids <==> id in InList(rows, list)
      modifies this
      ensures Listed(rows, list, ids) && OthersKept(old(rows), rows, list) && OnlyMoved(old(rows), rows)
    {
      for i := 0 to |ids|
        invariant rows.Keys == old(rows).Keys
        invariant forall id :: id in rows ==> rows[id] == old(rows)[id].(pos := rows[id].pos)
        invariant forall id :: id in rows && rows[id].list != list ==> rows[id] == old(rows)[id]
        invariant forall j :: 0 <= j < i ==> ids[j] in rows && rows[ids[j]].pos == j
      {
        assert ids[i] in ids && ids[i] in InList(old(rows), list);
        rows := rows[ids[i] := rows[ids[i]].(pos := i)];
      }
      forall i | 0 <= i < |ids| ensures ids[i] in rows && rows[ids[i]].list == list {
        assert ids[i] in ids;
      }
      forall id | id in rows && rows[id].list == list ensures 0 <= rows[id].pos < |ids| && ids[rows[id].pos] == id {
        assert id in ids;
      }
    }

    /** Appends a question: its position is the number of those already there. */
    method AddQuestion(list: string, id: string, created: int, ghost ids: seq<string>) returns (ok: bool)
      requires Listed(rows, list, ids)
      modifies this
      ensures ok <==> id !in old(rows)
      ensures Listed(rows, list, Edited(ids, old(rows).Keys, Add(id))) && OthersKept(old(rows), rows, list)
      ensures rows == if ok then old(rows)[id := Row(list, |ids|, created)] else old(rows)
    {
      var existing := ListQuestions(list);
      ListedIsOrdered(rows, list, ids);
      OrderIsUnique(rows, list, existing, ids);
      if id in rows { return false; }
      rows := rows[id := Row(list, |existing|, created)];
      return true;
    }

    /** Reorders the list if the request names every question exactly once. */
    method ReorderQuestions(list: string, order: seq<string>, ghost ids: seq<string>) returns (ok: bool)
      requires Listed(rows, list, ids)
      modifies this
      ensures ok <==> multiset(order) == multiset(ids)
      ensures Listed(rows, list, Edited(ids, old(rows).Keys, Reorder(order))) && OthersKept(old(rows), rows, list)
      ensures OnlyMoved(old(rows), rows) && (!ok ==> rows == old(rows))
    {
      var existing := ListQuestions(list);
      ListedIsOrdered(rows, list, ids);
      OrderIsUnique(rows, list, existing, ids);
      assert NoDup(ids);
      ok := IsPermutation(order, existing);
      if ok {
        SameMultiset(order, ids);
        Number(list, order);
      }
    }

    /** Deletes a question and closes the gap, whatever the positions of the list were before. */
    method DeleteQuestion(id: string) returns (ok: bool, ghost order: seq<string>)
      modifies this
      ensures ok <==> id in old(rows)
      ensures !ok ==> rows == old(rows)
      ensures ok ==>
                var list := old(rows)[id].list;
                && OnlyMoved(old(rows) - {id}, rows)
                && Ordered(old(rows) - {id}, list, order)
                && Listed(rows, list, order) && OthersKept(old(rows), rows, list)
    {
      order := [];
      if id !in rows { return false, order; }
      var list := rows[id].list;
      rows := rows - {id};
      var remaining := ListQuestions(list);
      order := remaining;
      forall i, j | 0 <= i < j < |remaining| ensures remaining[i] != remaining[j] {
        assert ByPosition(rows, remaining[i], remaining[j]);
        LessIrreflexive(remaining[i]);
      }
      Number(list, remaining);
      return true, order;
    }

    /** Deleting from a list whose positions were contiguous keeps the order of the rest. */
    method DeleteListed(list: string, id: string, ghost ids: seq<string>) returns (ok: bool)
      requires Listed(rows, list, ids)
      modifies this
      ensures ok <==> id in old(InList(rows, list))
      ensures Listed(rows, list, Edited(ids, old(rows).Keys, Delete(id))) && OthersKept(old(rows), rows, list)
      ensures OnlyMoved(if ok then old(rows) - {id} else old(rows), rows)
    {
      ListedIsOrdered(rows, list, ids);
      WithoutIsOrdered(rows, list, ids, id);
      if id !in rows || rows[id].list != list {
        WithoutStranger(ids, id);
        return false;
      }
      ghost var left := rows - {id};
      ghost var order;
      ok, order := DeleteQuestion(id);
      OrderIsUnique(left, list, order, Without(ids, id));
    }

    /** Any sequence of edits leaves the positions 0..n-1, in the order the edits ask for. */
    method Replay(list: string, edits: seq<Edit>, ghost start: seq<string>) returns (ghost ids: seq<string>)
      requires Listed(rows, list, start)
      modifies this
      ensures (ids, rows.Keys) == Replayed(start, old(rows).Keys, edits)
      ensures Listed(rows, list, ids) && OthersKept(old(rows), rows, list)
    {
      ids := start;
      for i := 0 to |edits|
        invariant (ids, rows.Keys) == Replayed(start, old(rows).Keys, edits[..i])
        invariant Listed(rows, list, ids) && OthersKept(old(rows), rows, list)
      {
        assert edits[..i + 1][..i] == edits[..i];
        ListedIsOrdered(rows, list, ids);
        ghost var taken := rows.Keys;
        match edits[i] {
          case Add(id) =>
            var _ := AddQuestion(list, id, i, ids);
            assert rows.Keys == taken + {id};
          case Reorder(order) => var _ := ReorderQuestions(list, order, ids);
          case Delete(id) =>
            assert id in ids <==> id in InList(rows, list);
            var _ := DeleteListed(list, id, ids);
        }
        ids := Edited(ids, taken, edits[i]);
      }
      assert edits[..|edits|] == edits;
    }
  }

  lemma SameMultiset(a: seq<string>, b: seq<string>)
    requires multiset(a) == multiset(b) && NoDup(b)
    ensures NoDup(a) && forall x :: x in a <==> x in b
  {
    forall x ensures x in a <==> x in b {
      assert x in multiset(a) <==> x in multiset(b);
    }
    assert Elements(a) == Elements(b);
    assert |a| == |multiset(a)| == |multiset(b)| == |b|;
    SizeOfElements(a);
    SizeOfElements(b);
  }
}
