// The same operations when calls do not overlap: what alias does to the two tables, what a statement does that the
// tables refuse, and that the Kafka messages rebuild the tables elsewhere.
module PersonSequential {
  import opened Wrappers
  import opened PersonTables
  import opened PersonReplica
  import opened Text

  // ----- what alias promises, said on the tables before and after -----

  predicate InClassOf(t: Tables, x: Key, k: Key) {
    x == k || SamePerson(t, x, k)
  }

  // The partition after is the one before with the classes of a and b joined.
  ghost predicate Unites(before: Tables, after: Tables, a: Key, b: Key) {
    && after.ids.Keys == before.ids.Keys + {a, b}
    && (forall x, y :: SamePerson(after, x, y) <==>
                       || SamePerson(before, x, y)
                       || ((InClassOf(before, x, a) || InClassOf(before, x, b))
                           && (InClassOf(before, y, a) || InClassOf(before, y, b))))
  }

  // $identify does not merge a person that is already identified into another one.
  predicate Refuses(t: Tables, a: Key, b: Key, identify: bool) {
    && identify
    && a in t.ids && b in t.ids && t.ids[a] != t.ids[b]
    && t.ids[a] in t.persons && t.persons[t.ids[a]].isIdentified
  }

  function CreatedAt(t: Tables, k: Key): Option<int> {
    match FetchPerson(t, k) case Some(p) => Some(p.createdAt) case None => None
  }

  function Earliest(x: Option<int>, y: Option<int>, now: int): int {
    match (x, y)
    case (None, None) => now
    case (Some(c), None) => c
    case (None, Some(d)) => d
    case (Some(c), Some(d)) => if c < d then c else d
  }

  function PropertiesOf(t: Tables, k: Key): Properties {
    match FetchPerson(t, k) case Some(p) => p.properties case None => map[]
  }

  predicate IsIdentified(t: Tables, k: Key) {
    var p := FetchPerson(t, k);
    p.Some? && p.value.isIdentified
  }

  // Persons of other distinct ids keep their rows.
  ghost predicate OthersUnchanged(before: Tables, after: Tables, a: Key, b: Key) {
    forall k :: k in before.ids && !InClassOf(before, k, a) && !InClassOf(before, k, b) ==>
                  FetchPerson(after, k) == FetchPerson(before, k)
  }

  ghost predicate Joined(before: Tables, after: Tables, a: Key, b: Key, identify: bool, now: int) {
    && Unites(before, after, a, b)
    && FetchPerson(after, a).Some? && FetchPerson(after, a) == FetchPerson(after, b)
    && FetchPerson(after, b).value.createdAt == Earliest(CreatedAt(before, a), CreatedAt(before, b), now)
    && FetchPerson(after, b).value.properties == PropertiesOf(before, a) + PropertiesOf(before, b)
    && FetchPerson(after, b).value.isIdentified == (IsIdentified(before, a) || IsIdentified(before, b) || identify)
    && OthersUnchanged(before, after, a, b)
  }

  ghost predicate AliasOutcome(before: Tables, after: Tables, a: Key, b: Key, identify: bool, now: int) {
    if a == b then after == before
    else if Refuses(before, a, b, identify) then
      && after.ids == before.ids
      && FetchPerson(before, b).Some?
      && FetchPerson(after, b) == Some(FetchPerson(before, b).value.(isIdentified := true))
      && (forall k <- before.ids :: !InClassOf(before, k, b) ==> FetchPerson(after, k) == FetchPerson(before, k))
    else Joined(before, after, a, b, identify, now)
  }

  function MovePair(k: Key, source: Person, target: Person): seq<Message> {
    [DistinctIdMessage(k, target.uuid, false), DistinctIdMessage(k, source.uuid, true)]
  }

  // The messages for moved rows, in the order in which Postgres returned the rows.
  function MoveMessages(rows: seq<Key>, source: Person, target: Person): seq<Message> {
    if rows == [] then []
    else MoveMessages(rows[..|rows| - 1], source, target) + MovePair(rows[|rows| - 1], source, target)
  }

  ghost predicate Distinct(rows: seq<Key>) {
    forall i, j :: 0 <= i < j < |rows| ==> rows[i] != rows[j]
  }

  // The tables with the listed rows moved one at a time.
  ghost function MovedOneByOne(t: Tables, rows: seq<Key>, target: nat): Tables {
    if rows == [] then t
    else
      var moved := MovedOneByOne(t, rows[..|rows| - 1], target);
      moved.(ids := moved.ids[rows[|rows| - 1] := target])
  }

  lemma {:induction false} MovedTogether(t: Tables, rows: seq<Key>, target: nat)
    requires forall k <- rows :: k in t.ids
    ensures MovedOneByOne(t, rows, target)
         == t.(ids := map k | k in t.ids :: if k in rows then target else t.ids[k])
  {
    if rows != [] {
      MovedTogether(t, rows[..|rows| - 1], target);
      assert rows == rows[..|rows| - 1] + [rows[|rows| - 1]];
    }
  }

  lemma {:induction false} MoveRowsSynced(t: Tables, rows: seq<Key>, source: Person, target: Person, messages: seq<Message>)
    requires Synced(t, messages) && Distinct(rows) && source.id != target.id
    requires source.id in t.persons && t.persons[source.id].uuid == source.uuid
    requires target.id in t.persons && t.persons[target.id].uuid == target.uuid && t.persons[target.id].team == target.team
    requires forall k <- rows :: k in t.ids && t.ids[k] == source.id && k.team == target.team
    ensures Synced(MovedOneByOne(t, rows, target.id), messages + MoveMessages(rows, source, target))
  {
    hide Synced;
    if rows == [] {
      assert messages + [] == messages;
    } else {
      var front, k := rows[..|rows| - 1], rows[|rows| - 1];
      MoveRowsSynced(t, front, source, target, messages);
      MovedTogether(t, front, target.id);
      RelinkSynced(MovedOneByOne(t, front, target.id), messages + MoveMessages(front, source, target), k, target.id);
      assert messages + MoveMessages(rows, source, target)
          == messages + MoveMessages(front, source, target) + MovePair(k, source, target);
    }
  }

  // The tables after a merge in which every statement succeeds.
  function Merged(t: Tables, into: Person, other: Person): Tables {
    var t1 := UpdatePerson(t, into.id, MergeUpdate(into, other));
    var rows := RowsOf(t1, other.id, into.team);
    var t2 := t1.(ids := map k | k in t1.ids :: if k in rows then into.id else t1.ids[k]);
    t2.(persons := t2.persons - {other.id})
  }

  // ----- each branch of alias joins the two classes -----

  lemma AddJoins(t: Tables, a: Key, b: Key, k: Key, now: int)
    requires Consistent(t) && a.team == b.team && a != b
    requires (a in t.ids && b !in t.ids && k == b) || (b in t.ids && a !in t.ids && k == a)
    ensures var person := t.ids[if k == b then a else b];
            Joined(t, t.(ids := t.ids[k := person]), a, b, false, now)
  {
  }

  lemma CreateJoins(t: Tables, a: Key, b: Key, identify: bool, now: int, uuid: string)
    requires Consistent(t) && a.team == b.team && a != b && a !in t.ids && b !in t.ids
    ensures var r := CreatePerson(t, now, map[], a.team, identify, uuid, [b.distinctId, a.distinctId]);
            r.Ok? && Joined(t, r.value, a, b, identify, now)
  {
    var keys := KeysOf(a.team, [b.distinctId, a.distinctId]);
    assert keys == [b, a] && keys[1..] == [a] && keys[1..][1..] == [];
    var person := Person(t.nextId, a.team, now, map[], identify, uuid);
    var t1 := t.(persons := t.persons[t.nextId := person], nextId := t.nextId + 1);
    var t2 := t1.(ids := t1.ids[b := t.nextId]);
    var t3 := t2.(ids := t2.ids[a := t.nextId]);
    assert InsertAll(t2, [a], t.nextId) == InsertAll(t3, [], t.nextId);
    assert InsertAll(t1, keys, t.nextId) == Ok(t3);
  }

  // One new person with one distinct id, and nothing else.
  ghost predicate AddsPerson(before: Tables, after: Tables, k: Key, now: int, uuid: string) {
    && after.ids.Keys == before.ids.Keys + {k}
    && (exists id :: FetchPerson(after, k) == Some(Person(id, k.team, now, map[], false, uuid)))
    && (forall other <- before.ids :: !SamePerson(after, other, k))
    && (forall other <- before.ids :: FetchPerson(after, other) == FetchPerson(before, other))
    && Grows(before, after)
  }

  lemma CreateOne(t: Tables, now: int, team: int, uuid: string, distinctId: string)
    requires Consistent(t) && Key(team, distinctId) !in t.ids
    ensures var r := CreatePerson(t, now, map[], team, false, uuid, [distinctId]);
            r.Ok? && AddsPerson(t, r.value, Key(team, distinctId), now, uuid)
  {
    var k := Key(team, distinctId);
    var person := Person(t.nextId, team, now, map[], false, uuid);
    var t1 := t.(persons := t.persons[t.nextId := person], nextId := t.nextId + 1);
    var t2 := t1.(ids := t1.ids[k := t.nextId]);
    assert KeysOf(team, [distinctId]) == [k] && [k][1..] == [];
    assert InsertAll(t1, [k], t.nextId) == InsertAll(t2, [], t.nextId) == Ok(t2);
    assert FetchPerson(t2, k) == Some(person);
  }

  lemma AlreadyJoined(t: Tables, a: Key, b: Key, now: int)
    requires Consistent(t) && a.team == b.team && SamePerson(t, a, b)
    ensures Joined(t, t, a, b, false, now)
  {
    assert PropertiesOf(t, a) + PropertiesOf(t, b) == PropertiesOf(t, b);
  }

  lemma MergeUnites(t: Tables, a: Key, b: Key)
    requires Consistent(t) && a.team == b.team
    requires a in t.ids && b in t.ids && t.ids[a] != t.ids[b]
    ensures Unites(t, Merged(t, t.persons[t.ids[b]], t.persons[t.ids[a]]), a, b)
  {
    var into, other := t.persons[t.ids[b]], t.persons[t.ids[a]];
    var after := Merged(t, into, other);
    forall k | k in t.ids
      ensures after.ids[k] == if t.ids[k] == other.id then into.id else t.ids[k]
    {
    }
    assert after.ids.Keys == t.ids.Keys;
  }

  lemma MergeJoins(t: Tables, a: Key, b: Key, now: int)
    requires Consistent(t) && a.team == b.team
    requires a in t.ids && b in t.ids && t.ids[a] != t.ids[b]
    ensures Joined(t, Merged(t, t.persons[t.ids[b]], t.persons[t.ids[a]]), a, b, false, now)
  {
    MergeUnites(t, a, b);
  }

  // setIsIdentified on the person of b, after the join.
  lemma IdentifyJoins(t: Tables, t1: Tables, a: Key, b: Key, identify: bool, now: int)
    requires Consistent(t1) && Joined(t, t1, a, b, identify, now)
    ensures Joined(t, UpdatePerson(t1, t1.ids[b], IDENTIFY), a, b, true, now)
  {
    var t2 := UpdatePerson(t1, t1.ids[b], IDENTIFY);
    forall x, y
      ensures SamePerson(t2, x, y) <==> SamePerson(t1, x, y)
    {
    }
    forall k | k in t.ids && !InClassOf(t, k, a) && !InClassOf(t, k, b)
      ensures FetchPerson(t2, k) == FetchPerson(t, k)
    {
      assert SamePerson(t, k, k) && SamePerson(t1, k, k);
      assert !SamePerson(t1, k, b);
    }
  }

  // ----- runs that consist of $identify calls only -----

  ghost predicate IdentifyStep(t: Tables, t': Tables) {
    exists a: Key, b: Key, now: int :: a.team == b.team && AliasOutcome(t, t', a, b, true, now)
  }

  lemma JoinKeepsIdentified(t: Tables, t': Tables, a: Key, b: Key, now: int, x: Key)
    requires Consistent(t) && Joined(t, t', a, b, true, now) && IsIdentified(t, x)
    ensures IsIdentified(t', x)
  {
    if InClassOf(t, x, a) || InClassOf(t, x, b) {
      assert SamePerson(t', x, b);
    }
  }

  // At most one of the two classes that an $identify call joins belongs to an identified person.
  lemma JoinKeepsApart(t: Tables, t': Tables, a: Key, b: Key, x: Key, y: Key)
    requires Consistent(t) && a.team == b.team && Unites(t, t', a, b) && !Refuses(t, a, b, true)
    requires IsIdentified(t, x) && IsIdentified(t, y) && !SamePerson(t, x, y)
    ensures !SamePerson(t', x, y)
  {
    assert InClassOf(t, x, a) ==> a in t.ids && t.ids[x] == t.ids[a];
    assert InClassOf(t, x, b) ==> b in t.ids && t.ids[x] == t.ids[b];
    assert InClassOf(t, y, a) ==> a in t.ids && t.ids[y] == t.ids[a];
    assert InClassOf(t, y, b) ==> b in t.ids && t.ids[y] == t.ids[b];
  }

  lemma RefusalKeeps(t: Tables, t': Tables, a: Key, b: Key, now: int, x: Key)
    requires Consistent(t) && Refuses(t, a, b, true) && AliasOutcome(t, t', a, b, true, now)
    requires IsIdentified(t, x)
    ensures IsIdentified(t', x)
  {
    if InClassOf(t, x, b) {
      assert t.ids[x] == t.ids[b] && t'.ids[x] == t'.ids[b];
      assert FetchPerson(t', b).value.isIdentified;
    }
  }

  lemma IdentifyStepKeeps(t: Tables, t': Tables, x: Key, y: Key)
    requires Consistent(t) && Consistent(t') && IdentifyStep(t, t')
    ensures IsIdentified(t, x) ==> IsIdentified(t', x)
    ensures IsIdentified(t, x) && IsIdentified(t, y) && !SamePerson(t, x, y) ==> !SamePerson(t', x, y)
  {
    hide Joined;
    var a: Key, b: Key, now: int :| a.team == b.team && AliasOutcome(t, t', a, b, true, now);
    if a != b && IsIdentified(t, x) {
      if Refuses(t, a, b, true) {
        RefusalKeeps(t, t', a, b, now, x);
      } else {
        JoinKeepsIdentified(t, t', a, b, now, x);
        if IsIdentified(t, y) && !SamePerson(t, x, y) {
          JoinedUnites(t, t', a, b, true, now);
          JoinKeepsApart(t, t', a, b, x, y);
        }
      }
    }
  }

  lemma JoinedUnites(t: Tables, t': Tables, a: Key, b: Key, identify: bool, now: int)
    requires Joined(t, t', a, b, identify, now)
    ensures Unites(t, t', a, b)
  {
  }

  // Identification never reverts, and two persons that are both identified never become one.
  lemma {:induction false} IdentifyRunKeeps(run: seq<Tables>, x: Key, y: Key)
    requires run != [] && (forall t <- run :: Consistent(t))
    requires forall i :: 0 <= i < |run| - 1 ==> IdentifyStep(run[i], run[i + 1])
    ensures var first, last := run[0], run[|run| - 1];
            && (IsIdentified(first, x) ==> IsIdentified(last, x))
            && (IsIdentified(first, x) && IsIdentified(first, y) && !SamePerson(first, x, y) ==> !SamePerson(last, x, y))
  {
    if |run| > 1 {
      assert IdentifyStep(run[0], run[1]);
      IdentifyStepKeeps(run[0], run[1], x, y);
      IdentifyStepKeeps(run[0], run[1], y, x);
      forall i | 0 <= i < |run[1..]| - 1
        ensures IdentifyStep(run[1..][i], run[1..][i + 1])
      {
        assert IdentifyStep(run[i + 1], run[i + 2]);
      }
      IdentifyRunKeeps(run[1..], x, y);
    }
  }

  // What mergePeople relies on from one statement to the next.
  lemma UpdateKeepsCopies(t: Tables, messages: seq<Message>, into: Person, other: Person, given: Person,
                          update: PersonUpdate)
    requires Synced(t, messages) && IsCopy(t, given) && IsCopy(t, other) && given.id != other.id && given.team == other.team
    requires into == given.(properties := into.properties) && update == MergeUpdate(given, other)
    ensures IsCopy(t, into) && Consistent(t)
    ensures var t1 := UpdatePerson(t, into.id, update);
            && Consistent(t1) && IsCopy(t1, into) && IsCopy(t1, other)
            && t1.ids == t.ids && t1.persons.Keys == t.persons.Keys
            && (into.id in t.persons ==> Agree(Updated(into, update), Updated(t.persons[into.id], update)))
            && var r := MoveDistinctIds(t1, other.id, into.id, into.team);
               r.Ok? ==> IsCopy(r.value, other) && DeletePerson(r.value, other.id).Ok?
  {
    var t1 := UpdatePerson(t, into.id, update);
    UpdateKeepsUuids(t, into.id, update);
    assert into.id in t.persons ==> Agree(Updated(into, update), Updated(t.persons[into.id], update));
    hide HasUuid, Synced, Updated, Agree;
    MoveFreesSource(t1, other, into);
  }

  lemma UpdateKeepsUuids(t: Tables, person: nat, update: PersonUpdate)
    requires Consistent(t)
    ensures var t1 := UpdatePerson(t, person, update);
            && Consistent(t1) && t1.ids == t.ids && t1.persons.Keys == t.persons.Keys
            && forall p: Person :: IsCopy(t, p) ==> IsCopy(t1, p)
  {
    var t1 := UpdatePerson(t, person, update);
    assert forall u :: HasUuid(t1.persons, u) ==> HasUuid(t.persons, u);
  }

  lemma MoveFreesSource(t: Tables, other: Person, into: Person)
    requires Consistent(t) && IsCopy(t, into) && IsCopy(t, other) && into.id != other.id && into.team == other.team
    ensures var r := MoveDistinctIds(t, other.id, into.id, into.team);
            r.Ok? ==> IsCopy(r.value, other) && DeletePerson(r.value, other.id).Ok?
  {
    MoveKeeps(t, other.id, into.id, into.team);
    hide HasUuid;
  }

  lemma JoinedFinds(t: Tables, t1: Tables, a: Key, b: Key, identify: bool, now: int)
    requires Consistent(t1)
    ensures Joined(t, t1, a, b, identify, now) ==> a in t1.ids && b in t1.ids
    ensures Joined(t, t1, a, b, false, now) || Joined(t, t1, a, b, identify, now) ==>
              b in t1.ids && Joined(t, UpdatePerson(t1, t1.ids[b], IDENTIFY), a, b, true, now)
  {
    if Joined(t, t1, a, b, false, now) {
      IdentifyJoins(t, t1, a, b, false, now);
    }
    if Joined(t, t1, a, b, identify, now) {
      IdentifyJoins(t, t1, a, b, identify, now);
    }
  }

  lemma SyncedIsConsistent(t: Tables, messages: seq<Message>)
    requires Synced(t, messages)
    ensures Consistent(t)
  {
  }

  // process-event.ts:45-62
  predicate IsDistinctIdIllegal(id: string) {
    || (forall c <- id :: IsSpace(c))
    || Lower(id) in {"anonymous", "guest", "distinctid", "distinct_id", "id", "not_authenticated", "email", "undefined",
                     "true", "false"}
    || id in {"[object Object]", "NaN", "None", "none", "null", "0"}
  }

  // Ten of the words are illegal in whatever case they are written, the others only as they stand.
  lemma IllegalWhateverCase(word: string, id: string)
    requires word in {"anonymous", "guest", "distinctid", "distinct_id", "id", "not_authenticated", "email", "undefined",
                      "true", "false"}
    requires |id| == |word|
    requires forall i :: 0 <= i < |id| ==> id[i] == word[i] || ('A' <= id[i] <= 'Z' && word[i] as int - id[i] as int == 32)
    ensures IsDistinctIdIllegal(id)
  {
    assert Lower(id) == word;
  }

  lemma SomeIdsAreLegal()
    ensures IsDistinctIdIllegal("") && IsDistinctIdIllegal("NaN") && IsDistinctIdIllegal("0")
    ensures !IsDistinctIdIllegal("nan") && !IsDistinctIdIllegal("1") && !IsDistinctIdIllegal("a guest")
  {
    assert Lower("nan") == "nan" && Lower("1") == "1" && Lower("a guest") == "a guest";
    assert !IsSpace("nan"[0]) && !IsSpace("1"[0]) && !IsSpace("a guest"[0]);
  }

  // EventsProcessor with its DB, when Kafka is enabled.  The catch blocks are not entered in such a
  // run (PersonInterleaving models them).
  class EventsProcessor {
    var tables: Tables
    var messages: seq<Message> // queued for Kafka so far, in order

    ghost predicate Valid()
      reads this
    {
      Synced(tables, messages)
    }

    constructor ()
      ensures Valid() && tables == Tables(map[], map[], 0)
    {
      tables := Tables(map[], map[], 0);
      messages := [];
    }

    method QueueMessages(kafkaMessages: seq<Message>)
      modifies this`messages
      ensures messages == old(messages) + kafkaMessages
    {
      for i := 0 to |kafkaMessages|
        invariant messages == old(messages) + kafkaMessages[..i]
      {
        messages := messages + [kafkaMessages[i]];
      }
    }

    // db.ts:445-486: the transaction inserts the person and all distinct ids, or is rolled back and throws.
    method CreatePerson(createdAt: int, properties: Properties, team: int, isIdentified: bool, uuid: string,
                        distinctIds: seq<string>)
      returns (created: bool)
      requires Valid() && !HasUuid(tables.persons, uuid)
      modifies this
      ensures Valid()
      ensures match PersonTables.CreatePerson(old(tables), createdAt, properties, team, isIdentified, uuid, distinctIds)
              case Ok(t) => created && tables == t
              case Err(_) => !created && tables == old(tables) && messages == old(messages)
    {
      var beforeTransaction := tables;
      var person := Person(tables.nextId, team, createdAt, properties, isIdentified, uuid);
      InsertSynced(tables, messages, person);
      tables := tables.(persons := tables.persons[person.id := person], nextId := tables.nextId + 1);
      hide Synced;
      var kafkaMessages := [PersonUpdateMessage(person, false)];
      created, kafkaMessages := AddDistinctIds(person, distinctIds, kafkaMessages);
      if created {
        QueueMessages(kafkaMessages);
      } else {
        tables := beforeTransaction;
      }
    }

    // The loop of createPerson over its distinct ids (db.ts:471-476).
    method AddDistinctIds(person: Person, distinctIds: seq<string>, kafkaMessages: seq<Message>)
      returns (added: bool, all: seq<Message>)
      requires Synced(tables, messages + kafkaMessages)
      requires person.id in tables.persons && tables.persons[person.id] == person
      modifies this`tables
      ensures match InsertAll(old(tables), KeysOf(person.team, distinctIds), person.id)
              case Ok(t) => added && tables == t && Synced(tables, messages + all)
              case Err(_) => !added
    {
      hide Synced;
      ghost var keys := KeysOf(person.team, distinctIds);
      ghost var goal := InsertAll(tables, keys, person.id);
      all := kafkaMessages;
      assert keys[0..] == keys;
      for i := 0 to |distinctIds|
        invariant Synced(tables, messages + all)
        invariant person.id in tables.persons && tables.persons[person.id] == person
        invariant InsertAll(tables, keys[i..], person.id) == goal
      {
        assert keys[i..][0] == keys[i] == Key(person.team, distinctIds[i]) && keys[i..][1..] == keys[i + 1..];
        var message := AddDistinctIdRow(person, distinctIds[i], all);
        if message.None? {
          return false, all;
        }
        assert messages + (all + [message.value]) == messages + all + [message.value];
        all := all + [message.value];
      }
      added := true;
    }

    // addDistinctIdPooled: the INSERT, which fails for a distinct id that is taken and for a person that is gone,
    // and the message that is still to be queued (db.ts:590-615).
    method AddDistinctIdRow(person: Person, distinctId: string, ghost pending: seq<Message>)
      returns (message: Option<Message>)
      requires Synced(tables, messages + pending) && IsCopy(tables, person)
      modifies this`tables
      ensures match InsertDistinctId(old(tables), Key(person.team, distinctId), person.id)
              case Ok(t) => message.Some? && tables == t && Synced(tables, messages + pending + [message.value])
              case Err(_) => message.None? && tables == old(tables)
    {
      var k := Key(person.team, distinctId);
      var inserted := InsertDistinctId(tables, k, person.id);
      if inserted.Err? {
        return None;
      }
      LinkSynced(tables, messages + pending, k, person.id);
      tables := inserted.value;
      message := Some(DistinctIdMessage(k, person.uuid, false));
    }

    // db.ts:583-588
    method AddDistinctId(person: Person, distinctId: string) returns (added: bool)
      requires Valid() && IsCopy(tables, person)
      modifies this
      ensures Valid()
      ensures match InsertDistinctId(old(tables), Key(person.team, distinctId), person.id)
              case Ok(t) => added && tables == t
              case Err(_) => !added && tables == old(tables) && messages == old(messages)
    {
      hide Synced;
      assert messages + [] == messages;
      var message := AddDistinctIdRow(person, distinctId, []);
      added := message.Some?;
      if added {
        QueueMessages([message.value]);
      }
    }

    // updatePerson with a client (db.ts:488-526)
    method UpdatePersonRow(person: Person, update: PersonUpdate, ghost pending: seq<Message>) returns (message: Message)
      requires Synced(tables, messages + pending) && IsCopy(tables, person)
      modifies this`tables
      ensures tables == UpdatePerson(old(tables), person.id, update)
      ensures message == PersonUpdateMessage(Updated(person, update), false)
      ensures Synced(tables, messages + pending + [message]) <==>
              && person.id in old(tables).persons
              && Agree(Updated(person, update), Updated(old(tables).persons[person.id], update))
    {
      UpdateSyncedExactly(tables, messages + pending, person, update);
      hide Synced;
      tables := UpdatePerson(tables, person.id, update);
      message := PersonUpdateMessage(Updated(person, update), false);
    }

    // updatePerson without a client
    method UpdatePersonNow(person: Person, update: PersonUpdate)
      requires Valid()
      requires person.id in tables.persons && tables.persons[person.id] == person
      modifies this
      ensures Valid() && tables == UpdatePerson(old(tables), person.id, update)
    {
      hide Synced;
      assert messages + [] == messages;
      var message := UpdatePersonRow(person, update, []);
      QueueMessages([message]);
    }

    // RETURNING *: the rows in an order that Postgres chooses.
    method Returning(rows: set<Key>) returns (order: seq<Key>)
      ensures Distinct(order) && forall k :: k in order <==> k in rows
    {
      order := [];
      var remaining := rows;
      while remaining != {}
        invariant remaining <= rows && Distinct(order)
        invariant forall k :: k in order <==> k in rows && k !in remaining
        decreases |remaining|
      {
        var k :| k in remaining;
        order := order + [k];
        remaining := remaining - {k};
      }
    }

    // db.ts:617-672: nothing is moved when the source has no row left or the target is gone.
    method MoveDistinctIdRows(source: Person, target: Person, ghost pending: seq<Message>)
      returns (moved: Result<seq<Message>, DbError>)
      requires Consistent(tables) && source.id != target.id
      requires IsCopy(tables, source) && IsCopy(tables, target)
      modifies this`tables
      ensures match PersonTables.MoveDistinctIds(old(tables), source.id, target.id, target.team)
              case Ok(t) =>
                && moved.Ok? && tables == t
                && (Synced(old(tables), messages + pending) ==> Synced(tables, messages + pending + moved.value))
              case Err(e) => moved == Err(e) && tables == old(tables)
    {
      hide Synced;
      var result := PersonTables.MoveDistinctIds(tables, source.id, target.id, target.team);
      if result.Err? {
        return Err(result.error);
      }
      ghost var before := tables;
      var rows := Returning(RowsOf(tables, source.id, target.team));
      tables := result.value;
      var kafkaMessages := [];
      for i := 0 to |rows|
        invariant kafkaMessages == MoveMessages(rows[..i], source, target)
      {
        assert rows[..i + 1][..i] == rows[..i];
        kafkaMessages := kafkaMessages + MovePair(rows[i], source, target);
      }
      assert rows[..|rows|] == rows;
      MovedTogether(before, rows, target.id);
      assert tables == MovedOneByOne(before, rows, target.id);
      if Synced(before, messages + pending) {
        MoveRowsSynced(before, rows, source, target, messages + pending);
      }
      moved := Ok(kafkaMessages);
    }

    // db.ts:528-543: refused while a distinct id still points to the person.
    method DeletePersonRow(person: Person, ghost pending: seq<Message>) returns (message: Option<Message>)
      requires Synced(tables, messages + pending) && IsCopy(tables, person)
      modifies this`tables
      ensures match PersonTables.DeletePerson(old(tables), person.id)
              case Ok(t) => message.Some? && tables == t && Synced(tables, messages + pending + [message.value])
              case Err(_) => message.None? && tables == old(tables)
    {
      var deleted := PersonTables.DeletePerson(tables, person.id);
      if deleted.Err? {
        return None;
      }
      DeleteSynced(tables, messages + pending, person);
      tables := deleted.value;
      message := Some(PersonUpdateMessage(person, true));
    }

    // process-event.ts:355-448.  Both persons are copies: the statements that write them set every column that may
    // be out of date.  When a person is gone, moveDistinctIds raises an error that the catch block passes on, and
    // the transaction is rolled back.
    method MergePeople(mergeInto: Person, otherPerson: Person) returns (merged: bool)
      requires Valid() && IsCopy(tables, mergeInto) && IsCopy(tables, otherPerson)
      requires mergeInto.id != otherPerson.id && mergeInto.team == otherPerson.team
      modifies this
      ensures Valid()
      ensures merged <==> mergeInto.id in old(tables).persons && RowsOf(old(tables), otherPerson.id, mergeInto.team) != {}
      ensures merged ==> tables == Merged(old(tables), mergeInto, otherPerson)
      ensures !merged ==> tables == old(tables) && messages == old(messages)
    {
      hide Synced, Consistent, IsCopy;
      var beforeTransaction := tables;
      var into := mergeInto.(properties := otherPerson.properties + mergeInto.properties);
      var firstSeen := mergeInto.createdAt;
      if otherPerson.createdAt < firstSeen {
        firstSeen := otherPerson.createdAt;
      }
      var update := PersonUpdate(Some(firstSeen), Some(into.properties),
                                 Some(into.isIdentified || otherPerson.isIdentified));
      assert update == MergeUpdate(mergeInto, otherPerson);
      UpdateKeepsCopies(tables, messages, into, otherPerson, mergeInto, update);
      assert messages + [] == messages;
      var updateMessage := UpdatePersonRow(into, update, []);
      var distinctIdMessages := MoveDistinctIdRows(otherPerson, into, [updateMessage]);
      if distinctIdMessages.Err? {
        tables := beforeTransaction;
        return false;
      }
      var pending := [updateMessage] + distinctIdMessages.value;
      assert messages + [updateMessage] + distinctIdMessages.value == messages + pending;
      var deleteMessage := DeletePersonRow(otherPerson, pending);
      var kafkaMessages := pending + [deleteMessage.value];
      assert messages + kafkaMessages == messages + pending + [deleteMessage.value];
      QueueMessages(kafkaMessages);
      merged := true;
    }

    // process-event.ts:247-255: throws for a distinct id without a person.
    method SetIsIdentified(team: int, distinctId: string) returns (found: bool)
      requires Valid()
      modifies this
      ensures Valid()
      ensures found <==> Key(team, distinctId) in old(tables).ids
      ensures found ==> tables == UpdatePerson(old(tables), old(tables).ids[Key(team, distinctId)], IDENTIFY)
      ensures !found ==> tables == old(tables) && messages == old(messages)
    {
      var personFound := FetchPerson(tables, Key(team, distinctId));
      if personFound.None? {
        return false;
      }
      if !personFound.value.isIdentified {
        UpdatePersonNow(personFound.value, IDENTIFY);
      }
      return true;
    }

    // process-event.ts:274-353
    method Alias(previousDistinctId: string, distinctId: string, team: int, shouldIdentifyPerson: bool,
                 now: int, uuid: string)
      requires Valid() && !HasUuid(tables.persons, uuid)
      modifies this
      ensures Valid()
      ensures AliasOutcome(old(tables), tables, Key(team, previousDistinctId), Key(team, distinctId),
                           shouldIdentifyPerson, now)
    {
      hide Synced, Joined, HasUuid;
      if previousDistinctId == distinctId {
        return;
      }
      ghost var a, b := Key(team, previousDistinctId), Key(team, distinctId);
      SyncedIsConsistent(tables, messages);
      var oldPerson := FetchPerson(tables, Key(team, previousDistinctId));
      var newPerson := FetchPerson(tables, Key(team, distinctId));
      if oldPerson.Some? && newPerson.None? {
        AddJoins(tables, a, b, b, now);
        var added := AddDistinctId(oldPerson.value, distinctId);
      } else if oldPerson.None? && newPerson.Some? {
        AddJoins(tables, a, b, a, now);
        var added := AddDistinctId(newPerson.value, previousDistinctId);
      } else if oldPerson.None? && newPerson.None? {
        CreateJoins(tables, a, b, shouldIdentifyPerson, now, uuid);
        var created := CreatePerson(now, map[], team, shouldIdentifyPerson, uuid, [distinctId, previousDistinctId]);
      } else if oldPerson.value.id != newPerson.value.id {
        if shouldIdentifyPerson && oldPerson.value.isIdentified {
          // both persons stay
        } else {
          MergeJoins(tables, a, b, now);
          assert a in RowsOf(tables, oldPerson.value.id, team);
          var merged := MergePeople(newPerson.value, oldPerson.value);
        }
      } else {
        AlreadyJoined(tables, a, b, now);
      }
      SyncedIsConsistent(tables, messages);
      if shouldIdentifyPerson {
        JoinedFinds(old(tables), tables, a, b, shouldIdentifyPerson, now);
        var found := SetIsIdentified(team, distinctId);
      }
    }

    // process-event.ts:257-272, for an event with a distinct id, an alias and perhaps an anonymous id
    method HandleIdentifyOrAlias(event: string, alias: string, anonDistinctId: Option<string>, distinctId: string,
                                 team: int, now: int, uuid: string)
      requires Valid() && !HasUuid(tables.persons, uuid)
      modifies this
      ensures Valid()
      ensures !IsDistinctIdIllegal(distinctId) && event == "$create_alias" ==>
                AliasOutcome(old(tables), tables, Key(team, alias), Key(team, distinctId), false, now)
      ensures !IsDistinctIdIllegal(distinctId) && event == "$identify" && anonDistinctId.Some? && anonDistinctId.value != "" ==>
                AliasOutcome(old(tables), tables, Key(team, anonDistinctId.value), Key(team, distinctId), true, now)
      ensures || IsDistinctIdIllegal(distinctId)
              || (event != "$create_alias" && event != "$identify")
              || (event == "$identify" && (anonDistinctId.None? || anonDistinctId.value == "")) ==>
                tables == old(tables) && messages == old(messages)
    {
      hide Synced, AliasOutcome, HasUuid;
      if IsDistinctIdIllegal(distinctId) {
        return;
      }
      if event == "$create_alias" {
        Alias(alias, distinctId, team, false, now, uuid);
      } else if event == "$identify" && anonDistinctId.Some? && anonDistinctId.value != "" {
        Alias(anonDistinctId.value, distinctId, team, true, now, uuid);
      }
    }

    // process-event.ts:623-640, with the LRU of PersonManager as a parameter
    method CreatePersonIfDistinctIdIsNew(team: int, distinctId: string, sentAt: int, personUuid: string, seen: bool)
      requires Valid() && !HasUuid(tables.persons, personUuid)
      modifies this
      ensures Valid()
      ensures var k := Key(team, distinctId);
              if seen || k in old(tables).ids then tables == old(tables) && messages == old(messages)
              else AddsPerson(old(tables), tables, k, sentAt, personUuid)
    {
      hide Synced, HasUuid, AddsPerson;
      SyncedIsConsistent(tables, messages);
      var k := Key(team, distinctId);
      if !seen && k !in tables.ids {
        CreateOne(tables, sentAt, team, personUuid, distinctId);
        var created := CreatePerson(sentAt, map[], team, false, personUuid, [distinctId]);
      }
    }

    // process-event.ts:212-245, with Kafka enabled: the row is written even when nothing changes
    method UpdatePersonProperties(team: int, distinctId: string, properties: Properties, propertiesOnce: Properties)
      returns (found: bool)
      requires Valid()
      modifies this
      ensures Valid()
      ensures found <==> Key(team, distinctId) in old(tables).ids
      ensures !found ==> tables == old(tables) && messages == old(messages)
      ensures tables.ids == old(tables).ids
      ensures found ==>
                var before := FetchPerson(old(tables), Key(team, distinctId));
                var after := FetchPerson(tables, Key(team, distinctId));
                && before.Some? && after.Some?
                && after.value == before.value.(properties := after.value.properties)
                && after.value.properties.Keys == before.value.properties.Keys + properties.Keys + propertiesOnce.Keys
                && forall x <- after.value.properties ::
                     after.value.properties[x] == if x in properties then properties[x]
                                                  else if x in before.value.properties then before.value.properties[x]
                                                  else propertiesOnce[x]
    {
      hide Synced;
      SyncedIsConsistent(tables, messages);
      var personFound := FetchPerson(tables, Key(team, distinctId));
      if personFound.None? {
        return false;
      }
      var person := personFound.value;
      var updatedProperties := person.properties;
      var unset := propertiesOnce - person.properties.Keys;
      updatedProperties := updatedProperties + unset;
      updatedProperties := updatedProperties + properties;
      UpdatePersonNow(person, PersonUpdate(None, Some(updatedProperties), None));
      return true;
    }
  }
}
