// Group type slots: every server hands out the five columns of a team through its own cache and
// the shared table posthog_grouptypemapping, unique on (team, type) and on (team, index).
module GroupTypes {
  import opened Wrappers
  import opened Digits

  const MAX_GROUP_TYPES_PER_TEAM := 5
  const MAX_CACHE_AGE_MS := 30_000

  type Types = map<string, nat> // group type to column index
  type Table = map<int, Types>  // by team

  function TypesOf(t: Table, team: int): Types {
    if team in t then t[team] else map[]
  }

  // The one SQL statement of insertGroupType (db.ts:1172-1185): insert, or read what is there.  No row
  // comes back when the index is taken by another type.
  function InsertOrRead(t: Table, team: int, groupType: string, index: nat): (Table, Option<nat>) {
    var types := TypesOf(t, team);
    if groupType in types then (t, Some(types[groupType]))
    else if index in types.Values then (t, None)
    else (t[team := types[groupType := index]], Some(index))
  }

  // ----- any number of servers and calls -----

  // What one server remembers of a team, and since when.
  datatype Entry = Entry(types: Types, age: int)

  type Cache = map<int, Entry>

  // The call awaits the table before it writes the cache, and the insertion before it deletes from the cache.
  datatype Pc =
    | Lookup
    | Storing(types: Types)
    | Inserting(index: nat)
    | Forgetting(column: nat)
    | Answered(answer: Option<nat>)

  // A call of fetchGroupTypeIndex on one server.
  datatype Call = Call(server: nat, team: int, groupType: string, pc: Pc)

  datatype Config = Config(table: Table, caches: seq<Cache>, calls: seq<Call>)

  // utils.ts:645-653
  function GetByAge(cache: Cache, team: int, now: int): Option<Types> {
    if team in cache && now - cache[team].age <= MAX_CACHE_AGE_MS then Some(cache[team].types) else None
  }

  // Any call may move next, at any clock reading: caches can be arbitrarily out of date.
  datatype Turn = Turn(call: nat, now: int)

  // How a call goes on that has the types of its team.
  function WithTypes(groupType: string, types: Types): Pc {
    if groupType in types then Answered(Some(types[groupType])) else Inserting(|types|)
  }

  function Step(c: Config, turn: Turn): Config {
    if turn.call >= |c.calls| || c.calls[turn.call].server >= |c.caches| then c
    else
      var call := c.calls[turn.call];
      var cache := c.caches[call.server];
      match call.pc
      case Lookup =>
        var cached := GetByAge(cache, call.team, turn.now);
        var pc := if cached.Some? then WithTypes(call.groupType, cached.value) else Storing(TypesOf(c.table, call.team));
        c.(calls := c.calls[turn.call := call.(pc := pc)])
      case Storing(types) =>
        c.(caches := c.caches[call.server := cache[call.team := Entry(types, turn.now)]],
           calls := c.calls[turn.call := call.(pc := WithTypes(call.groupType, types))])
      case Inserting(index) =>
        if index >= MAX_GROUP_TYPES_PER_TEAM then c.(calls := c.calls[turn.call := call.(pc := Answered(None))])
        else
          var (table, row) := InsertOrRead(c.table, call.team, call.groupType, index);
          if row.None? then c.(calls := c.calls[turn.call := call.(pc := Inserting(index + 1))])
          else c.(table := table, calls := c.calls[turn.call := call.(pc := Forgetting(row.value))])
      case Forgetting(column) =>
        c.(caches := c.caches[call.server := cache - {call.team}],
           calls := c.calls[turn.call := call.(pc := Answered(Some(column)))])
      case Answered(_) => c
  }

  function Run(c: Config, turns: seq<Turn>): Config
    decreases |turns|
  {
    if turns == [] then c else Run(Step(c, turns[0]), turns[1..])
  }

  ghost predicate Uses(types: Types, index: nat) {
    exists g :: g in types && types[g] == index
  }

  // The indexes in use are 0, 1, ..., n - 1, each for one type.
  ghost predicate Contiguous(types: Types) {
    && |types| <= MAX_GROUP_TYPES_PER_TEAM
    && (forall g :: g in types ==> types[g] < |types|)
    && (forall i: nat :: i < |types| ==> Uses(types, i))
    && (forall g, h :: g in types && h in types && types[g] == types[h] ==> g == h)
  }

  ghost predicate Within(types: Types, later: Types) {
    forall g :: g in types ==> g in later && later[g] == types[g]
  }

  predicate Full(types: Types) {
    |types| == MAX_GROUP_TYPES_PER_TEAM
  }

  ghost predicate TableOk(t: Table) {
    forall team :: team in t ==> Contiguous(t[team])
  }

  ghost predicate CacheOk(t: Table, cache: Cache) {
    forall team :: team in cache ==> Contiguous(cache[team].types) && Within(cache[team].types, TypesOf(t, team))
  }

  ghost predicate CallOk(t: Table, call: Call) {
    var types := TypesOf(t, call.team);
    match call.pc
    case Lookup => true
    case Storing(read) => Contiguous(read) && Within(read, types)
    case Forgetting(column) => call.groupType in types && types[call.groupType] == column
    case Inserting(index) =>
      && index <= MAX_GROUP_TYPES_PER_TEAM
      && (forall i: nat :: i < index ==> Uses(types, i))
      && (index == MAX_GROUP_TYPES_PER_TEAM ==> call.groupType !in types)
    case Answered(Some(index)) => call.groupType in types && types[call.groupType] == index
    case Answered(None) => Full(types) && call.groupType !in types
  }

  ghost predicate Inv(c: Config) {
    && TableOk(c.table)
    && (forall i :: 0 <= i < |c.caches| ==> CacheOk(c.table, c.caches[i]))
    && (forall i :: 0 <= i < |c.calls| ==> CallOk(c.table, c.calls[i]))
  }

  ghost predicate Initial(c: Config) {
    && c.table == map[]
    && (forall i :: 0 <= i < |c.caches| ==> c.caches[i] == map[])
    && (forall i :: 0 <= i < |c.calls| ==> c.calls[i].pc == Lookup)
  }

  // What a step may do to the table: assign free slots of teams that have one.
  ghost predicate Guarantee(t: Table, t': Table) {
    forall team :: && Within(TypesOf(t, team), TypesOf(t', team))
                   && (Full(TypesOf(t, team)) ==> TypesOf(t', team) == TypesOf(t, team))
  }

  lemma GuaranteeOf(t: Table, t': Table, team: int)
    requires Guarantee(t, t')
    ensures Within(TypesOf(t, team), TypesOf(t', team))
    ensures Full(TypesOf(t, team)) ==> TypesOf(t', team) == TypesOf(t, team)
  {
  }

  lemma GuaranteeReflexive(t: Table)
    ensures Guarantee(t, t)
  {
  }

  lemma GuaranteeTransitive(t0: Table, t1: Table, t2: Table)
    requires Guarantee(t0, t1) && Guarantee(t1, t2)
    ensures Guarantee(t0, t2)
  {
    forall team
      ensures Within(TypesOf(t0, team), TypesOf(t2, team))
      ensures Full(TypesOf(t0, team)) ==> TypesOf(t2, team) == TypesOf(t0, team)
    {
      GuaranteeOf(t0, t1, team);
      GuaranteeOf(t1, t2, team);
    }
  }

  lemma ContiguousEmpty()
    ensures Contiguous(map[])
  {
  }

  lemma TypesOk(t: Table, team: int)
    requires TableOk(t)
    ensures Contiguous(TypesOf(t, team))
  {
    ContiguousEmpty();
  }

  // A free index below which all are used is the next one: the prefix grows by one.
  lemma TakesNextIndex(types: Types, groupType: string, index: nat)
    requires Contiguous(types) && groupType !in types && index < MAX_GROUP_TYPES_PER_TEAM
    requires index !in types.Values && forall i: nat :: i < index ==> Uses(types, i)
    ensures index == |types| && Contiguous(types[groupType := index])
  {
    assert index < |types| ==> Uses(types, index);
    assert 0 < index ==> Uses(types, index - 1);
    var types' := types[groupType := index];
    forall i: nat | i < |types'|
      ensures Uses(types', i)
    {
      if i < index {
        assert Uses(types, i);
        var g :| g in types && types[g] == i;
        assert g in types' && types'[g] == i;
      } else {
        assert types'[groupType] == i;
      }
    }
  }

  lemma UsesLater(types: Types, later: Types, i: nat)
    requires Within(types, later) && Uses(types, i)
    ensures Uses(later, i)
  {
  }

  // A cache that knows five types knows them all.
  lemma FullCacheIsComplete(cached: Types, types: Types, g: string)
    requires Contiguous(cached) && Contiguous(types) && Within(cached, types) && Full(cached) && g in types
    ensures g in cached
  {
    assert Uses(cached, types[g]);
  }

  lemma UsedUpIsFull(types: Types)
    requires Contiguous(types) && forall i: nat :: i < MAX_GROUP_TYPES_PER_TEAM ==> Uses(types, i)
    ensures Full(types)
  {
    assert Uses(types, MAX_GROUP_TYPES_PER_TEAM - 1);
  }

  lemma ValueIsUsed(types: Types, index: nat)
    ensures Uses(types, index) <==> index in types.Values
  {
  }

  lemma SizeAfter(types: Types, groupType: string, index: nat)
    requires Contiguous(types[groupType := index]) && groupType !in types
    ensures !Full(types)
  {
    assert |types[groupType := index]| == |types| + 1;
  }

  lemma InsertOrReadKeeps(t: Table, team: int, groupType: string, index: nat)
    requires TableOk(t) && index < MAX_GROUP_TYPES_PER_TEAM
    requires forall i: nat :: i < index ==> Uses(TypesOf(t, team), i)
    ensures var (t', row) := InsertOrRead(t, team, groupType, index);
            && TableOk(t') && Guarantee(t, t')
            && (row.Some? ==> groupType in TypesOf(t', team) && TypesOf(t', team)[groupType] == row.value)
            && (row.None? ==>
                  && t' == t && groupType !in TypesOf(t, team)
                  && forall i: nat :: i < index + 1 ==> Uses(TypesOf(t, team), i))
  {
    hide Contiguous, Uses;
    var types := TypesOf(t, team);
    TypesOk(t, team);
    if groupType !in types {
      if index !in types.Values {
        TakesNextIndex(types, groupType, index);
        SizeAfter(types, groupType, index);
      } else {
        ValueIsUsed(types, index);
      }
    }
  }

  lemma CallStable(t: Table, t': Table, call: Call)
    requires Guarantee(t, t') && CallOk(t, call)
    requires call.pc.Inserting? && call.pc.index == MAX_GROUP_TYPES_PER_TEAM ==> Full(TypesOf(t, call.team))
    ensures CallOk(t', call)
  {
    var types, types' := TypesOf(t, call.team), TypesOf(t', call.team);
    assert Within(types, types');
    if call.pc.Inserting? {
      forall i: nat | i < call.pc.index
        ensures Uses(types', i)
      {
        UsesLater(types, types', i);
      }
    }
  }

  lemma CacheStable(t: Table, t': Table, cache: Cache)
    requires Guarantee(t, t') && CacheOk(t, cache)
    ensures CacheOk(t', cache)
  {
    forall team | team in cache
      ensures Within(cache[team].types, TypesOf(t', team))
    {
      assert Within(TypesOf(t, team), TypesOf(t', team));
    }
  }

  // A call that has just looked types up may start at index |types|.
  lemma LookupOk(t: Table, call: Call, types: Types)
    requires TableOk(t) && Contiguous(types) && Within(types, TypesOf(t, call.team))
    ensures CallOk(t, call.(pc := WithTypes(call.groupType, types)))
  {
    var all := TypesOf(t, call.team);
    TypesOk(t, call.team);
    if call.groupType !in types && Full(types) && call.groupType in all {
      FullCacheIsComplete(types, all, call.groupType);
    }
    forall i: nat | i < |types|
      ensures Uses(all, i)
    {
      assert Uses(types, i);
      UsesLater(types, all, i);
    }
  }

  // What the call that moves does: the table only grows, and the call and its server's cache stay in order.
  ghost predicate OwnStepOk(t: Table, t': Table, call: Call, cache: Cache) {
    TableOk(t') && Guarantee(t, t') && CallOk(t', call) && CacheOk(t', cache)
  }

  lemma LookupStepOk(t: Table, cache: Cache, call: Call, now: int)
    requires TableOk(t) && CacheOk(t, cache)
    ensures var cached := GetByAge(cache, call.team, now);
            OwnStepOk(t, t, call.(pc := if cached.Some? then WithTypes(call.groupType, cached.value)
                                        else Storing(TypesOf(t, call.team))), cache)
  {
    hide Contiguous, Uses, TypesOf, WithTypes;
    GuaranteeReflexive(t);
    TypesOk(t, call.team);
    var cached := GetByAge(cache, call.team, now);
    if cached.Some? {
      LookupOk(t, call, cached.value);
    }
  }

  // What is stored may have been read before other calls inserted.
  lemma StoreStepOk(t: Table, cache: Cache, call: Call, now: int)
    requires TableOk(t) && CacheOk(t, cache) && CallOk(t, call) && call.pc.Storing?
    ensures OwnStepOk(t, t, call.(pc := WithTypes(call.groupType, call.pc.types)),
                      cache[call.team := Entry(call.pc.types, now)])
  {
    hide Contiguous, Uses, TypesOf, WithTypes;
    GuaranteeReflexive(t);
    LookupOk(t, call, call.pc.types);
  }

  lemma ForgetStepOk(t: Table, cache: Cache, call: Call)
    requires TableOk(t) && CacheOk(t, cache) && CallOk(t, call) && call.pc.Forgetting?
    ensures OwnStepOk(t, t, call.(pc := Answered(Some(call.pc.column))), cache - {call.team})
  {
    hide Contiguous, Uses, TypesOf;
    GuaranteeReflexive(t);
  }

  lemma InsertStepOk(t: Table, cache: Cache, call: Call)
    requires TableOk(t) && CacheOk(t, cache) && CallOk(t, call)
    requires call.pc.Inserting? && call.pc.index < MAX_GROUP_TYPES_PER_TEAM
    ensures var (t', row) := InsertOrRead(t, call.team, call.groupType, call.pc.index);
            if row.None? then t' == t && OwnStepOk(t, t, call.(pc := Inserting(call.pc.index + 1)), cache)
            else OwnStepOk(t, t', call.(pc := Forgetting(row.value)), cache)
  {
    hide Contiguous, Uses, InsertOrRead, TypesOf;
    InsertOrReadKeeps(t, call.team, call.groupType, call.pc.index);
    CacheStable(t, InsertOrRead(t, call.team, call.groupType, call.pc.index).0, cache);
  }

  lemma GiveUpStepOk(t: Table, cache: Cache, call: Call)
    requires TableOk(t) && CacheOk(t, cache) && CallOk(t, call)
    requires call.pc.Inserting? && call.pc.index >= MAX_GROUP_TYPES_PER_TEAM
    ensures OwnStepOk(t, t, call.(pc := Answered(None)), cache)
  {
    hide Contiguous, Uses, TypesOf;
    GuaranteeReflexive(t);
    TypesOk(t, call.team);
    UsedUpIsFull(TypesOf(t, call.team));
  }

  // The step seen from the call that moves.
  lemma OwnStep(c: Config, turn: Turn)
    requires Inv(c) && turn.call < |c.calls| && c.calls[turn.call].server < |c.caches|
    ensures var c' := Step(c, turn);
            OwnStepOk(c.table, c'.table, c'.calls[turn.call], c'.caches[c.calls[turn.call].server])
  {
    hide OwnStepOk, CallOk, CacheOk, TableOk, InsertOrRead, GetByAge, TypesOf;
    var call := c.calls[turn.call];
    var cache := c.caches[call.server];
    assert CacheOk(c.table, cache) && CallOk(c.table, call);
    match call.pc
    case Lookup => LookupStepOk(c.table, cache, call, turn.now);
    case Storing(_) => StoreStepOk(c.table, cache, call, turn.now);
    case Forgetting(_) => ForgetStepOk(c.table, cache, call);
    case Inserting(index) =>
      if index < MAX_GROUP_TYPES_PER_TEAM {
        InsertStepOk(c.table, cache, call);
      } else {
        GiveUpStepOk(c.table, cache, call);
      }
    case Answered(_) => NothingChanges(c.table, cache, call);
  }

  lemma NothingChanges(t: Table, cache: Cache, call: Call)
    requires TableOk(t) && CacheOk(t, cache) && CallOk(t, call)
    ensures OwnStepOk(t, t, call, cache)
  {
    GuaranteeReflexive(t);
  }

  // The step seen from the other calls and the other servers.
  lemma OtherCallOk(t: Table, t': Table, call: Call)
    requires TableOk(t) && Guarantee(t, t') && CallOk(t, call)
    ensures CallOk(t', call)
  {
    hide Contiguous, Uses, TypesOf, Guarantee;
    TypesOk(t, call.team);
    if call.pc.Inserting? && call.pc.index == MAX_GROUP_TYPES_PER_TEAM {
      UsedUpIsFull(TypesOf(t, call.team));
    }
    CallStable(t, t', call);
  }

  lemma OthersUnchanged(c: Config, turn: Turn)
    requires turn.call < |c.calls| && c.calls[turn.call].server < |c.caches|
    ensures var c' := Step(c, turn);
            && |c'.caches| == |c.caches| && |c'.calls| == |c.calls|
            && (forall i :: 0 <= i < |c.caches| && i != c.calls[turn.call].server ==> c'.caches[i] == c.caches[i])
            && (forall i :: 0 <= i < |c.calls| && i != turn.call ==> c'.calls[i] == c.calls[i])
  {
    hide InsertOrRead, GetByAge, TypesOf, WithTypes;
  }

  lemma StepKeeps(c: Config, turn: Turn)
    requires Inv(c)
    ensures Inv(Step(c, turn)) && Guarantee(c.table, Step(c, turn).table)
  {
    if turn.call < |c.calls| && c.calls[turn.call].server < |c.caches| {
      OwnStep(c, turn);
      OthersUnchanged(c, turn);
      hide Step, CallOk, CacheOk, TableOk, Guarantee;
      var c' := Step(c, turn);
      forall i | 0 <= i < |c'.caches|
        ensures CacheOk(c'.table, c'.caches[i])
      {
        if i != c.calls[turn.call].server {
          CacheStable(c.table, c'.table, c.caches[i]);
        }
      }
      forall i | 0 <= i < |c'.calls|
        ensures CallOk(c'.table, c'.calls[i])
      {
        if i != turn.call {
          OtherCallOk(c.table, c'.table, c.calls[i]);
        }
      }
    } else {
      GuaranteeReflexive(c.table);
    }
  }

  lemma {:induction false} RunKeeps(c: Config, turns: seq<Turn>)
    requires Inv(c)
    ensures Inv(Run(c, turns)) && Guarantee(c.table, Run(c, turns).table)
    decreases |turns|
  {
    if turns != [] {
      StepKeeps(c, turns[0]);
      RunKeeps(Step(c, turns[0]), turns[1..]);
      GuaranteeTransitive(c.table, Step(c, turns[0]).table, Run(c, turns).table);
    }
  }

  // The column of the type, or null because five other types have them all.
  predicate IsRightAnswer(types: Types, groupType: string, answer: Option<nat>) {
    if answer.Some? then groupType in types && types[groupType] == answer.value && answer.value < 5
    else groupType !in types && |types| == 5
  }

  // Over every interleaving: used indexes form a prefix of 0..4, one type each; no assignment changes;
  // and any two answers for one type are the same, null included, whichever server gave them.
  lemma SlotsAreConsistent(c: Config, turns: seq<Turn>, more: seq<Turn>, team: int)
    requires Initial(c)
    ensures var mid := Run(c, turns);
            var end := Run(mid, more);
            && Contiguous(TypesOf(end.table, team)) && |TypesOf(end.table, team)| <= 5
            && Within(TypesOf(mid.table, team), TypesOf(end.table, team))
            && (forall i :: 0 <= i < |mid.calls| && mid.calls[i].pc.Answered? && mid.calls[i].team == team ==>
                              IsRightAnswer(TypesOf(mid.table, team), mid.calls[i].groupType, mid.calls[i].pc.answer))
            && (forall i, j :: && 0 <= i < |mid.calls| && 0 <= j < |end.calls|
                               && mid.calls[i].pc.Answered? && end.calls[j].pc.Answered?
                               && mid.calls[i].team == end.calls[j].team == team
                               && mid.calls[i].groupType == end.calls[j].groupType ==>
                                 mid.calls[i].pc.answer == end.calls[j].pc.answer)
  {
    assert Inv(c);
    RunKeeps(c, turns);
    var mid := Run(c, turns);
    RunKeeps(mid, more);
    var end := Run(mid, more);
    TypesOk(end.table, team);
    assert Within(TypesOf(mid.table, team), TypesOf(end.table, team));
    TypesOk(mid.table, team);
    forall i | 0 <= i < |mid.calls| && mid.calls[i].pc.Answered? && mid.calls[i].team == team
      ensures IsRightAnswer(TypesOf(mid.table, team), mid.calls[i].groupType, mid.calls[i].pc.answer)
    {
      assert CallOk(mid.table, mid.calls[i]);
    }
    forall i, j | && 0 <= i < |mid.calls| && 0 <= j < |end.calls|
                  && mid.calls[i].pc.Answered? && end.calls[j].pc.Answered?
                  && mid.calls[i].team == end.calls[j].team == team
                  && mid.calls[i].groupType == end.calls[j].groupType
      ensures mid.calls[i].pc.answer == end.calls[j].pc.answer
    {
      assert CallOk(mid.table, mid.calls[i]) && CallOk(end.table, end.calls[j]);
    }
  }

  // ----- one server at a time -----

  // The first index from the given one on that no type has.
  function FirstFree(types: Types, index: nat): Option<nat>
    decreases MAX_GROUP_TYPES_PER_TEAM - index
  {
    if index >= MAX_GROUP_TYPES_PER_TEAM then None
    else if index in types.Values then FirstFree(types, index + 1)
    else Some(index)
  }

  // What insertGroupType comes to from a given index on: nothing, the type's index, or the first free one.
  function Inserted(t: Table, team: int, groupType: string, index: nat): (Table, Option<nat>) {
    var types := TypesOf(t, team);
    if index >= MAX_GROUP_TYPES_PER_TEAM then (t, None)
    else if groupType in types then (t, Some(types[groupType]))
    else
      match FirstFree(types, index)
      case None => (t, None)
      case Some(free) => (t[team := types[groupType := free]], Some(free))
  }

  lemma {:induction false} FirstFreeIsNext(types: Types, index: nat)
    requires Contiguous(types) && forall i: nat :: i < index ==> Uses(types, i)
    ensures FirstFree(types, index) == if Full(types) then None else Some(|types|)
    decreases MAX_GROUP_TYPES_PER_TEAM - index
  {
    if index < MAX_GROUP_TYPES_PER_TEAM {
      ValueIsUsed(types, index);
      assert index < |types| ==> Uses(types, index);
      if index in types.Values {
        FirstFreeIsNext(types, index + 1);
      } else {
        IndexBelowSize(types, index);
      }
    } else {
      UsedUpIsFull(types);
    }
  }

  lemma IndexBelowSize(types: Types, index: nat)
    requires Contiguous(types) && index !in types.Values && forall i: nat :: i < index ==> Uses(types, i)
    ensures index == |types|
  {
    assert index < |types| ==> Uses(types, index);
    assert 0 < index ==> Uses(types, index - 1);
  }

  // From an index below which all are taken, the columns in use stay a prefix.
  lemma InsertedKeeps(t: Table, team: int, groupType: string, index: nat)
    requires TableOk(t) && index <= MAX_GROUP_TYPES_PER_TEAM
    requires forall i: nat :: i < index ==> Uses(TypesOf(t, team), i)
    requires index == MAX_GROUP_TYPES_PER_TEAM ==> groupType !in TypesOf(t, team)
    ensures var (t', r) := Inserted(t, team, groupType, index);
            && TableOk(t') && Guarantee(t, t')
            && var before := TypesOf(t, team);
               if groupType in before then r == Some(before[groupType]) && t' == t
               else if Full(before) then r == None && t' == t
               else r == Some(|before|) && t' == t[team := before[groupType := |before|]]
  {
    hide Contiguous, Uses;
    var types := TypesOf(t, team);
    TypesOk(t, team);
    if index == MAX_GROUP_TYPES_PER_TEAM {
      UsedUpIsFull(types);
    } else if groupType !in types {
      FirstFreeIsNext(types, index);
      if !Full(types) {
        NextIndexFits(types, groupType);
      }
    }
  }

  lemma NextIndexFits(types: Types, groupType: string)
    requires Contiguous(types) && groupType !in types && !Full(types)
    ensures Contiguous(types[groupType := |types|])
  {
    ValueIsUsed(types, |types|);
    TakesNextIndex(types, groupType, |types|);
  }

  class DB {
    var mapping: Table

    constructor ()
      ensures mapping == map[]
    {
      mapping := map[];
    }

    // db.ts:1167-1193
    method InsertGroupType(team: int, groupType: string, index: nat) returns (r: Option<nat>)
      modifies this
      ensures (mapping, r) == Inserted(old(mapping), team, groupType, index)
      ensures index >= 5 ==> r == None && mapping == old(mapping)
      decreases MAX_GROUP_TYPES_PER_TEAM - index
    {
      if index >= MAX_GROUP_TYPES_PER_TEAM {
        return None;
      }
      var (table, row) := InsertOrRead(mapping, team, groupType, index);
      if row.None? {
        r := InsertGroupType(team, groupType, index + 1);
        return;
      }
      mapping := table;
      return row;
    }
  }

  class GroupTypeManager {
    const db: DB
    var groupTypesCache: Cache

    constructor (db: DB)
      ensures this.db == db && groupTypesCache == map[]
    {
      this.db := db;
      groupTypesCache := map[];
    }

    ghost predicate Valid()
      reads this, db
    {
      TableOk(db.mapping) && CacheOk(db.mapping, groupTypesCache)
    }

    // group-type-manager.ts:15-29
    method FetchGroupTypes(team: int, now: int) returns (types: Types)
      requires Valid()
      modifies this`groupTypesCache
      ensures Valid()
      ensures Contiguous(types) && Within(types, TypesOf(db.mapping, team))
      ensures team in old(groupTypesCache) && now - old(groupTypesCache)[team].age <= 30_000 ==>
                types == old(groupTypesCache)[team].types && groupTypesCache == old(groupTypesCache)
      ensures team !in old(groupTypesCache) || now - old(groupTypesCache)[team].age > 30_000 ==>
                && types == (if team in db.mapping then db.mapping[team] else map[])
                && groupTypesCache == old(groupTypesCache)[team := Entry(types, now)]
    {
      var cachedGroupTypes := GetByAge(groupTypesCache, team, now);
      if cachedGroupTypes.Some? {
        return cachedGroupTypes.value;
      }
      types := TypesOf(db.mapping, team);
      TypesOk(db.mapping, team);
      groupTypesCache := groupTypesCache[team := Entry(types, now)];
    }

    // group-type-manager.ts:31-43.  However old the cache is, the answer is the one the table gives.
    method FetchGroupTypeIndex(team: int, groupType: string, now: int) returns (r: Option<nat>)
      requires Valid()
      modifies this`groupTypesCache, db
      ensures Valid() && Guarantee(old(db.mapping), db.mapping)
      ensures var before := TypesOf(old(db.mapping), team);
              if groupType in before then r == Some(before[groupType]) && db.mapping == old(db.mapping)
              else if Full(before) then r == None && db.mapping == old(db.mapping)
              else r == Some(|before|) && db.mapping == old(db.mapping)[team := before[groupType := |before|]]
    {
      var groupTypes := FetchGroupTypes(team, now);
      ghost var types := TypesOf(db.mapping, team);
      TypesOk(db.mapping, team);
      if groupType in groupTypes {
        return Some(groupTypes[groupType]);
      }
      if Full(groupTypes) && groupType in types {
        FullCacheIsComplete(groupTypes, types, groupType);
      }
      forall i: nat | i < |groupTypes|
        ensures Uses(types, i)
      {
        UsesLater(groupTypes, types, i);
      }
      InsertedKeeps(db.mapping, team, groupType, |groupTypes|);
      r := db.InsertGroupType(team, groupType, |groupTypes|);
      CacheStable(old(db.mapping), db.mapping, groupTypesCache);
      if r.Some? {
        groupTypesCache := groupTypesCache - {team};
      }
    }

    // groups.ts:6-20: properties.$groups, listed as entries, go to the columns of their types.  No two
    // types share a column, so no entry overwrites another.
    method AddGroupProperties(team: int, properties: map<string, string>, groups: seq<(string, string)>, now: int)
      returns (r: map<string, string>)
      requires Valid()
      requires forall i, j :: 0 <= i < j < |groups| ==> groups[i].0 != groups[j].0
      modifies this`groupTypesCache, db
      ensures Valid() && Guarantee(old(db.mapping), db.mapping)
      ensures Columns(TypesOf(db.mapping, team), properties, groups, r)
    {
      hide Columns, Contiguous, Guarantee;
      r := properties;
      NoColumns(TypesOf(db.mapping, team), properties);
      GuaranteeReflexive(db.mapping);
      for i := 0 to |groups|
        invariant Valid() && Guarantee(old(db.mapping), db.mapping)
        invariant Columns(TypesOf(db.mapping, team), properties, groups[..i], r)
      {
        ghost var table, before := db.mapping, TypesOf(db.mapping, team);
        var columnIndex := FetchGroupTypeIndex(team, groups[i].0, now);
        TypesOk(db.mapping, team);
        GuaranteeTransitive(old(db.mapping), table, db.mapping);
        GuaranteeOf(table, db.mapping, team);
        assert groups[..i + 1] == groups[..i] + [groups[i]];
        AddColumn(before, TypesOf(db.mapping, team), properties, groups[..i], groups[i], r, columnIndex);
        if columnIndex.Some? {
          r := r[ColumnName(columnIndex.value) := groups[i].1];
        }
      }
      assert groups[..|groups|] == groups;
    }
  }

  lemma NoColumns(types: Types, properties: map<string, string>)
    ensures Columns(types, properties, [], properties)
  {
  }

  function ColumnName(index: nat): string {
    "$group_" + Decimal(index)
  }

  // The names that the properties of an event have for the five columns.
  lemma ColumnNames()
    ensures ColumnName(0) == "$group_0" && ColumnName(1) == "$group_1" && ColumnName(2) == "$group_2"
    ensures ColumnName(3) == "$group_3" && ColumnName(4) == "$group_4"
  {
  }

  lemma ColumnNamesDiffer(i: nat, j: nat)
    requires ColumnName(i) == ColumnName(j)
    ensures i == j
  {
    assert ColumnName(i)[7..] == Decimal(i) && ColumnName(j)[7..] == Decimal(j);
    DecimalInjective(i, j);
  }

  lemma TypesHaveOwnColumns(types: Types, g: string, h: string)
    requires Contiguous(types) && g in types && h in types && g != h
    ensures ColumnName(types[g]) != ColumnName(types[h])
  {
    if ColumnName(types[g]) == ColumnName(types[h]) {
      ColumnNamesDiffer(types[g], types[h]);
    }
  }

  // The group is in its column, or all columns are given to other types.
  predicate Filled(types: Types, group: (string, string), after: map<string, string>) {
    if group.0 in types
    then ColumnName(types[group.0]) in after && after[ColumnName(types[group.0])] == group.1
    else Full(types)
  }

  ghost predicate IsNoColumn(types: Types, groups: seq<(string, string)>, k: string) {
    forall i :: 0 <= i < |groups| && groups[i].0 in types ==> k != ColumnName(types[groups[i].0])
  }

  predicate SameAt(before: map<string, string>, after: map<string, string>, k: string) {
    (k in after <==> k in before) && (k in before ==> after[k] == before[k])
  }

  // after holds every group that has a column in its column, and every other key is as before.
  ghost predicate Columns(types: Types, before: map<string, string>, groups: seq<(string, string)>,
                          after: map<string, string>)
  {
    && (forall i :: 0 <= i < |groups| ==> Filled(types, groups[i], after))
    && (forall k :: IsNoColumn(types, groups, k) ==> SameAt(before, after, k))
  }

  lemma AddColumn(types: Types, later: Types, before: map<string, string>, groups: seq<(string, string)>,
                  group: (string, string), r: map<string, string>, index: Option<nat>)
    requires Columns(types, before, groups, r)
    requires Contiguous(later) && Within(types, later) && (Full(types) ==> later == types)
    requires forall g <- groups :: g.0 != group.0
    requires if group.0 in later then index == Some(later[group.0]) else index == None && Full(later)
    requires forall g <- later :: g in types || g == group.0
    ensures var r' := if index.Some? then r[ColumnName(index.value) := group.1] else r;
            Columns(later, before, groups + [group], r')
  {
    hide Contiguous, ColumnName, Within, Full;
    var r' := if index.Some? then r[ColumnName(index.value) := group.1] else r;
    var all := groups + [group];
    forall i | 0 <= i < |all|
      ensures Filled(later, all[i], r')
    {
      if i < |groups| {
        assert all[i] == groups[i] && groups[i] in groups;
        assert Filled(types, groups[i], r);
        StaysFilled(types, later, groups[i], group, r, index);
      } else {
        NowFilled(later, group, r, index);
      }
    }
    forall k | IsNoColumn(later, all, k)
      ensures SameAt(before, r', k)
    {
      NoEarlierColumn(types, later, groups, group, k);
      assert SameAt(before, r, k);
    }
  }

  lemma StaysFilled(types: Types, later: Types, earlier: (string, string), group: (string, string),
                    r: map<string, string>, index: Option<nat>)
    requires Filled(types, earlier, r) && earlier.0 != group.0
    requires Contiguous(later) && Within(types, later) && (Full(types) ==> later == types)
    requires if group.0 in later then index == Some(later[group.0]) else index == None && Full(later)
    requires earlier.0 in later ==> earlier.0 in types
    ensures Filled(later, earlier, if index.Some? then r[ColumnName(index.value) := group.1] else r)
  {
    hide Contiguous, ColumnName;
    if earlier.0 in later && group.0 in later {
      TypesHaveOwnColumns(later, earlier.0, group.0);
    }
  }

  lemma NowFilled(later: Types, group: (string, string), r: map<string, string>, index: Option<nat>)
    requires if group.0 in later then index == Some(later[group.0]) else index == None && Full(later)
    ensures Filled(later, group, if index.Some? then r[ColumnName(index.value) := group.1] else r)
  {
    hide ColumnName;
  }

  lemma NoEarlierColumn(types: Types, later: Types, groups: seq<(string, string)>, group: (string, string), k: string)
    requires Within(types, later) && IsNoColumn(later, groups + [group], k)
    ensures IsNoColumn(types, groups, k)
    ensures group.0 in later ==> k != ColumnName(later[group.0])
  {
    hide ColumnName;
    var all := groups + [group];
    assert all[|groups|] == group;
    forall i | 0 <= i < |groups| && groups[i].0 in types
      ensures k != ColumnName(types[groups[i].0])
    {
      assert all[i] == groups[i];
    }
  }
}
