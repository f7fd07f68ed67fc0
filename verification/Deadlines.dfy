/**
 * The answer deadlines of all games: one sorted set shared by every instance, whose
 * members are "gameID|index" and whose scores are times in milliseconds.
 */
module Deadlines {
  import opened Domain
  import opened Order

  // ----- decimal numbers

  predicate IsDigit(c: char) { '0' <= c <= '9' }

  function DigitValue(c: char): int
    requires IsDigit(c)
  {
    (c - '0') as int
  }

  function Digits(n: nat): string {
    var last := [('0' as int + n % 10) as char];
    if n < 10 then last else Digits(n / 10) + last
  }

  function Itoa(n: int): string {
    if n < 0 then "-" + Digits(-n) else Digits(n)
  }

  /** The value of a string of digits; None if it holds anything else. */
  function Unsigned(s: string): Option<int> {
    if s == [] || !IsDigit(s[|s| - 1]) then None
    else if |s| == 1 then Some(DigitValue(s[0]))
    else
      var rest := Unsigned(s[..|s| - 1]);
      if rest.None? then None else Some(10 * rest.value + DigitValue(s[|s| - 1]))
  }

  /** Go's Atoi with its error dropped: anything that is not an optionally signed number reads as 0. */
  function Atoi(s: string): int {
    if s == [] then 0
    else
      var signed := s[0] == '-' || s[0] == '+';
      var n := Unsigned(if signed then s[1..] else s);
      if n.None? then 0 else if s[0] == '-' then -n.value else n.value
  }

  lemma {:induction false} DigitsRoundTrip(n: nat)
    ensures Digits(n) != [] && (forall c :: c in Digits(n) ==> IsDigit(c)) && Unsigned(Digits(n)) == Some(n)
  {
    if n >= 10 {
      DigitsRoundTrip(n / 10);
      var s := Digits(n);
      assert s[..|s| - 1] == Digits(n / 10);
    }
  }

  lemma ItoaRoundTrip(n: int)
    ensures Atoi(Itoa(n)) == n && '|' !in Itoa(n)
  {
    DigitsRoundTrip(if n < 0 then -n else n);
    if n < 0 {
      assert Itoa(n)[1..] == Digits(-n);
    } else {
      assert Digits(n)[0] in Digits(n);
    }
  }

  /** Anything but digits after an optional sign reads as 0, and a minus sign negates. */
  lemma AtoiOtherwise(s: string)
    ensures
      var digits := if s != [] && (s[0] == '-' || s[0] == '+') then s[1..] else s;
      && (digits == [] || (exists c :: c in digits && !IsDigit(c)) ==> Atoi(s) == 0)
      && (Unsigned(digits).Some? && s[0] == '-' ==> Atoi(s) == -Unsigned(digits).value)
      && (Unsigned(digits).Some? && s[0] != '-' ==> Atoi(s) == Unsigned(digits).value)
  {
    var digits := if s != [] && (s[0] == '-' || s[0] == '+') then s[1..] else s;
    OnlyDigits(digits);
  }

  lemma {:induction false} OnlyDigits(s: string)
    ensures Unsigned(s).Some? <==> s != [] && forall c :: c in s ==> IsDigit(c)
    ensures Unsigned(s).Some? ==> Unsigned(s).value >= 0
  {
    if s != [] {
      var rest, last := s[..|s| - 1], s[|s| - 1];
      OnlyDigits(rest);
      assert s == rest + [last];
    }
  }

  // ----- members

  function Member(id: string, idx: int): string {
    id + "|" + Itoa(idx)
  }

  /** Where the last separator is, or -1. */
  function LastBar(m: string): int {
    if m == [] then -1 else if m[|m| - 1] == '|' then |m| - 1 else LastBar(m[..|m| - 1])
  }

  function Parse(m: string): Option<(string, int)> {
    var sep := LastBar(m);
    if 0 <= sep < |m| then Some((m[..sep], Atoi(m[sep + 1..]))) else None
  }

  lemma {:induction false} LastBarOf(id: string, rest: string)
    requires '|' !in rest
    ensures LastBar(id + "|" + rest) == |id|
  {
    var m := id + "|" + rest;
    if rest != [] {
      var shorter := rest[..|rest| - 1];
      assert m[..|m| - 1] == id + "|" + shorter;
      assert m[|m| - 1] == rest[|rest| - 1];
      LastBarOf(id, shorter);
    }
  }

  /** Any game id, even one that contains separators, and any index come back out of the member. */
  lemma MemberRoundTrip(id: string, idx: int)
    ensures Parse(Member(id, idx)) == Some((id, idx))
  {
    ItoaRoundTrip(idx);
    LastBarOf(id, Itoa(idx));
    var m := Member(id, idx);
    assert m[..|id|] == id && m[|id| + 1..] == Itoa(idx);
  }

  lemma MembersAreDistinct(id: string, idx: int, id': string, idx': int)
    requires Member(id, idx) == Member(id', idx')
    ensures id == id' && idx == idx'
  {
    MemberRoundTrip(id, idx);
    MemberRoundTrip(id', idx');
  }

  /** The scan from the end for the last separator. */
  method LastIndexByte(m: string) returns (sep: int)
    ensures sep == LastBar(m)
    ensures sep == -1 <==> '|' !in m
    ensures sep >= 0 ==> sep < |m| && m[sep] == '|' && '|' !in m[sep + 1..]
  {
    sep := |m| - 1;
    assert m[..|m|] == m;
    while sep >= 0 && m[sep] != '|'
      invariant -1 <= sep < |m|
      invariant LastBar(m) == LastBar(m[..sep + 1])
      invariant '|' !in m[sep + 1..]
      decreases sep
    {
      assert m[..sep + 1][..sep] == m[..sep];
      assert m[sep..] == [m[sep]] + m[sep + 1..];
      sep := sep - 1;
    }
    assert m == m[..sep + 1] + m[sep + 1..];
  }

  // ----- claiming

  type ZSet = map<string, int>

  /** Sorted-set order: by score, then by member. */
  predicate ByScore(z: ZSet, a: string, b: string) {
    var x, y := ScoreOf(z, a), ScoreOf(z, b);
    x < y || (x == y && Less(a, b))
  }

  function ScoreOf(z: ZSet, m: string): int {
    if m in z then z[m] else 0
  }

  function DueMembers(z: ZSet, now: int): set<string> {
    set m | m in z && z[m] <= now
  }

  ghost predicate InOrder(z: ZSet, members: seq<string>) {
    forall i, j :: 0 <= i < j < |members| ==> ByScore(z, members[i], members[j])
  }

  /** `batch` is what the claim script returns: the first `max` due members in order. */
  ghost predicate IsBatch(z: ZSet, now: int, max: nat, batch: seq<string>) {
    && InOrder(z, batch)
    && |batch| <= max
    && (forall m :: m in batch ==> m in DueMembers(z, now))
    && (|batch| < max ==> forall m :: m in DueMembers(z, now) ==> m in batch)
    && (forall m, b :: m in DueMembers(z, now) && m !in batch && b in batch ==> ByScore(z, b, m))
  }

  lemma ByScoreIsStrictTotal(z: ZSet, before: (string, string) -> bool)
    requires forall a, b :: before(a, b) == ByScore(z, a, b)
    ensures StrictTotal(before)
  {
    LessIsStrictTotal();
    forall x, y, w | before(x, y) && before(y, w) ensures before(x, w) {
      assert ByScore(z, x, y) && ByScore(z, y, w);
    }
    forall x, y ensures x == y || before(x, y) || before(y, x) {
      assert ScoreOf(z, x) != ScoreOf(z, y) || x == y || Less(x, y) || Less(y, x);
    }
  }

  /**
   * A batch in terms of times: deadlines that are reached, now included, the oldest
   * first and equally old ones by member; what is reached and not in it is no older, and
   * is left only by a full batch.
   */
  lemma OldestFirst(z: ZSet, now: int, max: nat, batch: seq<string>)
    requires IsBatch(z, now, max, batch)
    ensures forall m :: m in batch ==> m in z && z[m] <= now
    ensures forall i, j :: 0 <= i < j < |batch| ==>
      z[batch[i]] < z[batch[j]] || (z[batch[i]] == z[batch[j]] && Less(batch[i], batch[j]))
    ensures forall m, b :: m in z && z[m] <= now && m !in batch && b in batch ==> z[b] <= z[m]
    ensures |batch| <= max && (|batch| < max ==> forall m :: m in z && z[m] <= now ==> m in batch)
  {
    forall i | 0 <= i < |batch| ensures batch[i] in z { assert batch[i] in batch; }
    forall i, j | 0 <= i < j < |batch|
      ensures z[batch[i]] < z[batch[j]] || (z[batch[i]] == z[batch[j]] && Less(batch[i], batch[j]))
    {
      assert ByScore(z, batch[i], batch[j]);
    }
    forall m, b | m in z && z[m] <= now && m !in batch && b in batch ensures z[b] <= z[m] {
      assert ByScore(z, b, m);
    }
  }

  /** The claim is deterministic: the order decides the batch. */
  lemma BatchIsUnique(z: ZSet, now: int, max: nat, a: seq<string>, b: seq<string>)
    requires IsBatch(z, now, max, a) && IsBatch(z, now, max, b)
    ensures (forall m :: m in a <==> m in b) && a == b
  {
    var before := (x, y) => ByScore(z, x, y);
    ByScoreIsStrictTotal(z, before);
    SameMembers(z, now, max, a, b, before);
    SameMembers(z, now, max, b, a, before);
    var s := set m | m in a;
    OrderIsSorted(z, a, before);
    OrderIsSorted(z, b, before);
    ListingIsUnique(before, a, b, s);
  }

  lemma OrderIsSorted(z: ZSet, members: seq<string>, before: (string, string) -> bool)
    requires forall x, y :: before(x, y) == ByScore(z, x, y)
    ensures InOrder(z, members) <==> Sorted(before, members)
  {
    if Sorted(before, members) {
      forall i, j | 0 <= i < j < |members| ensures ByScore(z, members[i], members[j]) {
        assert before(members[i], members[j]);
      }
    }
  }

  lemma NotBoth(z: ZSet, a: string, b: string)
    ensures !(ByScore(z, a, b) && ByScore(z, b, a))
  {
    if ByScore(z, a, b) && ByScore(z, b, a) {
      LessTransitive(a, b, a);
      LessIrreflexive(a);
    }
  }

  lemma SameMembers(z: ZSet, now: int, max: nat, a: seq<string>, b: seq<string>, before: (string, string) -> bool)
    requires IsBatch(z, now, max, a) && IsBatch(z, now, max, b)
    requires (forall x, y :: before(x, y) == ByScore(z, x, y)) && StrictTotal(before)
    ensures forall m :: m in a ==> m in b
  {
    forall m | m in a ensures m in b {
      if m !in b {
        // b is full and everything in it precedes m, so all of it is in a: a would be longer than max
        var s, t := set x | x in a, set x | x in b;
        forall x | x in b ensures x in a {
          NotBoth(z, x, m);
        }
        OrderIsSorted(z, a, before);
        OrderIsSorted(z, b, before);
        ListingIsUnique(before, a, a, s);
        ListingIsUnique(before, b, b, t);
        assert t <= s - {m};
        SubsetSize(t, s - {m});
      }
    }
  }

  lemma {:induction false} SubsetSize<T>(s: set<T>, t: set<T>)
    requires s <= t
    ensures |s| <= |t|
  {
    if s != {} {
      var x :| x in s;
      SubsetSize(s - {x}, t - {x});
    }
  }

  function Elements(batch: seq<string>): set<string> { set m | m in batch }

  /** What a claimed batch is for; a member without a separator is skipped. */
  function Parsed(batch: seq<string>): seq<(string, int)> {
    if batch == [] then []
    else
      var rest, d := Parsed(batch[..|batch| - 1]), Parse(batch[|batch| - 1]);
      if d.Some? then rest + [d.value] else rest
  }

  function Members(due: seq<(string, int)>): seq<string> {
    if due == [] then [] else Members(due[..|due| - 1]) + [Member(due[|due| - 1].0, due[|due| - 1].1)]
  }

  lemma {:induction false} ParsedAll(batch: seq<string>, due: seq<(string, int)>)
    requires |batch| == |due| && forall i :: 0 <= i < |batch| ==> Parse(batch[i]) == Some(due[i])
    ensures Parsed(batch) == due
  {
    if batch != [] {
      ParsedAll(batch[..|batch| - 1], due[..|due| - 1]);
      assert due == due[..|due| - 1] + [due[|due| - 1]];
    }
  }

  lemma {:induction false} MembersAt(due: seq<(string, int)>)
    ensures |Members(due)| == |due|
    ensures forall i :: 0 <= i < |due| ==> Members(due)[i] == Member(due[i].0, due[i].1)
  {
    if due != [] { MembersAt(due[..|due| - 1]); }
  }

  /** A claim hands out exactly the questions its members were made from, in the same order. */
  lemma ParsedMembers(due: seq<(string, int)>)
    ensures Parsed(Members(due)) == due
  {
    var batch := Members(due);
    MembersAt(due);
    forall i | 0 <= i < |due| ensures Parse(batch[i]) == Some(due[i]) {
      MemberRoundTrip(due[i].0, due[i].1);
    }
    ParsedAll(batch, due);
  }

  /** The shared set as an object. */
  class DeadlineSet {
    var z: ZSet

    constructor ()
      ensures z == map[]
    {
      z := map[];
    }

    method ScheduleClose(id: string, idx: int, at: int)
      modifies this
      ensures z == old(z)[Member(id, idx) := at]
    {
      z := z[Member(id, idx) := at];
    }

    method CancelClose(id: string, idx: int)
      modifies this
      ensures z == old(z) - {Member(id, idx)}
    {
      z := z - {Member(id, idx)};
    }

    /** The claim script: removes and returns up to `max` of the deadlines reached. */
    method ClaimScript(now: int, max: nat) returns (batch: seq<string>)
      modifies this
      ensures IsBatch(old(z), now, max, batch)
      ensures z == old(z) - Elements(batch)
    {
      var all := InScoreOrder(now);
      batch := if |all| <= max then all else all[..max];
      assert forall i :: 0 <= i < |batch| ==> all[i] == batch[i] && batch[i] in batch;
      forall m, b | m in DueMembers(z, now) && m !in batch && b in batch ensures ByScore(z, b, m) {
        var i :| 0 <= i < |all| && all[i] == m;
        var j :| 0 <= j < |batch| && batch[j] == b;
        assert j < |batch| <= i;
      }
      z := z - Elements(batch);
    }

    method InScoreOrder(now: int) returns (all: seq<string>)
      ensures InOrder(z, all) && forall m :: m in all <==> m in DueMembers(z, now)
    {
      var zs := z;
      var before := (x, y) => ByScore(zs, x, y);
      ByScoreIsStrictTotal(zs, before);
      all := [];
      var rest := DueMembers(z, now);
      while rest != {}
        invariant rest <= DueMembers(z, now)
        invariant Lists(before, all, DueMembers(z, now) - rest)
        decreases |rest|
      {
        var m :| m in rest;
        InsertLists(before, m, all, DueMembers(z, now) - rest);
        assert DueMembers(z, now) - rest + {m} == DueMembers(z, now) - (rest - {m});
        all, rest := Insert(before, m, all), rest - {m};
      }
      OrderIsSorted(zs, all, before);
    }

    /** Claims a batch and parses its members. */
    method ClaimDueCloses(now: int, max: nat) returns (due: seq<(string, int)>, ghost batch: seq<string>)
      modifies this
      ensures IsBatch(old(z), now, max, batch)
      ensures z == old(z) - Elements(batch)
      ensures due == Parsed(batch)
    {
      var members := ClaimScript(now, max);
      batch, due := members, [];
      for i := 0 to |members|
        invariant due == Parsed(members[..i])
        invariant z == old(z) - Elements(batch)
      {
        assert members[..i + 1][..i] == members[..i];
        var m := members[i];
        var sep := LastIndexByte(m);
        if sep >= 0 {
          due := due + [(m[..sep], Atoi(m[sep + 1..]))];
        }
      }
      assert members[..|members|] == members;
    }
  }

  // ----- each deadline is handed out once per scheduling

  datatype ZOp = Add(member: string, score: int) | Remove(member: string) | Claim(now: int, max: nat, batch: seq<string>)

  ghost predicate Possible(z: ZSet, op: ZOp) {
    op.Claim? ==> IsBatch(z, op.now, op.max, op.batch)
  }

  ghost function Apply(z: ZSet, op: ZOp): ZSet {
    match op
    case Add(m, score) => z[m := score]
    case Remove(m) => z - {m}
    case Claim(_, _, batch) => z - Elements(batch)
  }

  ghost predicate History(z: ZSet, ops: seq<ZOp>)
    decreases |ops|
  {
    ops == [] || (Possible(z, ops[0]) && History(Apply(z, ops[0]), ops[1..]))
  }

  function Times(batch: seq<string>, m: string): nat {
    if batch == [] then 0 else Times(batch[..|batch| - 1], m) + if batch[|batch| - 1] == m then 1 else 0
  }

  function Returned(ops: seq<ZOp>, m: string): nat {
    if ops == [] then 0 else (if ops[0].Claim? then Times(ops[0].batch, m) else 0) + Returned(ops[1..], m)
  }

  function Scheduled(ops: seq<ZOp>, m: string): nat {
    if ops == [] then 0 else (if ops[0].Add? && ops[0].member == m then 1 else 0) + Scheduled(ops[1..], m)
  }

  lemma {:induction false} OnceInBatch(z: ZSet, batch: seq<string>, m: string)
    requires InOrder(z, batch)
    ensures Times(batch, m) == if m in batch then 1 else 0
  {
    if batch != [] {
      var rest, last := batch[..|batch| - 1], batch[|batch| - 1];
      assert batch == rest + [last];
      OnceInBatch(z, rest, m);
      if last in rest {
        var i :| 0 <= i < |rest| && rest[i] == last;
        assert ByScore(z, batch[i], batch[|batch| - 1]);
        LessIrreflexive(last);
      }
    }
  }

  /** However many instances claim, a member is returned at most once for each time it was scheduled. */
  lemma {:induction false} ReturnedOncePerScheduling(z: ZSet, ops: seq<ZOp>, m: string)
    requires History(z, ops)
    ensures Returned(ops, m) <= Scheduled(ops, m) + if m in z then 1 else 0
    decreases |ops|
  {
    if ops != [] {
      ReturnedOncePerScheduling(Apply(z, ops[0]), ops[1..], m);
      if ops[0].Claim? {
        OnceInBatch(z, ops[0].batch, m);
        if m in ops[0].batch { assert m in DueMembers(z, ops[0].now); }
      }
    }
  }

  // ----- one game's part of the set

  /** `part` holds exactly the deadlines of game `id`. */
  ghost predicate PartOf(z: ZSet, id: string, part: map<int, int>) {
    forall k :: (k in part <==> Member(id, k) in z) && (k in part ==> part[k] == z[Member(id, k)])
  }

  /** Scheduling and cancelling touch one index of one game. */
  lemma ScheduleIsLocal(z: ZSet, id: string, idx: int, at: int, other: string, part: map<int, int>)
    requires PartOf(z, other, part)
    ensures PartOf(z[Member(id, idx) := at], other, if other == id then part[idx := at] else part)
    ensures PartOf(z - {Member(id, idx)}, other, if other == id then part - {idx} else part)
  {
    forall k ensures Member(other, k) == Member(id, idx) <==> other == id && k == idx {
      if Member(other, k) == Member(id, idx) { MembersAreDistinct(other, k, id, idx); }
    }
  }

  /** A claim takes from each game some of its deadlines that are due, and hands out exactly those. */
  lemma ClaimIsLocal(z: ZSet, now: int, max: nat, batch: seq<string>, id: string, part: map<int, int>) returns (due: set<int>)
    requires IsBatch(z, now, max, batch) && PartOf(z, id, part)
    ensures forall k :: k in due ==> k in part && part[k] <= now
    ensures PartOf(z - Elements(batch), id, part - due)
    ensures forall k :: k in due <==> Member(id, k) in batch
  {
    due := set k | k in part && Member(id, k) in batch;
    forall k ensures k in due <==> Member(id, k) in batch {
      if Member(id, k) in batch { assert Member(id, k) in DueMembers(z, now); }
    }
  }
}
