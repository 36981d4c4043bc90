// The two Postgres tables behind person identity, and one function for each SQL statement that
// src/utils/db/db.ts runs against them.  A statement is atomic: it maps tables to tables or fails.
module PersonTables {
  import opened Wrappers

  type Properties = map<string, string>

  // A row of posthog_person.  Workers hold copies of rows that may be out of date.
  datatype Person = Person(
    id: nat,
    team: int,
    createdAt: int, // milliseconds
    properties: Properties,
    isIdentified: bool,
    uuid: string)

  // posthog_persondistinctid is unique on (team_id, distinct_id).
  datatype Key = Key(team: int, distinctId: string)

  datatype Tables = Tables(persons: map<nat, Person>, ids: map<Key, nat>, nextId: nat)

  datatype DbError =
    | DatabaseError       // an error raised by Postgres
    | RaceConditionError  // raised by moveDistinctIds itself
    | OtherError

  // What the constraints promise of every committed state: each distinct id points to an existing
  // person of its own team, and serial ids are not handed out twice.
  ghost predicate Consistent(t: Tables) {
    && (forall k <- t.ids :: t.ids[k] in t.persons && t.persons[t.ids[k]].team == k.team)
    && (forall p <- t.persons :: t.persons[p].id == p && p < t.nextId)
  }

  predicate SamePerson(t: Tables, a: Key, b: Key) {
    a in t.ids && b in t.ids && t.ids[a] == t.ids[b]
  }

  // The relation "these two distinct ids belong to the same person" only grows.  With a == b this
  // also says that no distinct id is lost.
  ghost predicate Grows(before: Tables, after: Tables) {
    forall a, b :: SamePerson(before, a, b) ==> SamePerson(after, a, b)
  }

  predicate Referenced(t: Tables, person: nat) {
    exists k :: k in t.ids && t.ids[k] == person
  }

  // SELECT ... FROM posthog_person JOIN posthog_persondistinctid ... (db.ts:421-441)
  function FetchPerson(t: Tables, k: Key): Option<Person> {
    if k in t.ids && t.ids[k] in t.persons && t.persons[t.ids[k]].team == k.team
    then Some(t.persons[t.ids[k]])
    else None
  }

  // INSERT INTO posthog_persondistinctid (db.ts:590-598)
  function InsertDistinctId(t: Tables, k: Key, person: nat): Result<Tables, DbError> {
    if k in t.ids || person !in t.persons
    then Err(DatabaseError)
    else Ok(t.(ids := t.ids[k := person]))
  }

  // The rows that the UPDATE of moveDistinctIds selects.
  function RowsOf(t: Tables, person: nat, team: int): set<Key> {
    set k | k in t.ids && t.ids[k] == person && k.team == team
  }

  // UPDATE posthog_persondistinctid SET person_id = target WHERE person_id = source AND team_id = team
  // (db.ts:617-651).  No row, or a target that is gone, is a RaceConditionError.
  function MoveDistinctIds(t: Tables, source: nat, target: nat, team: int): Result<Tables, DbError> {
    var rows := RowsOf(t, source, team);
    if rows == {} || target !in t.persons
    then Err(RaceConditionError)
    else Ok(t.(ids := map k | k in t.ids :: if k in rows then target else t.ids[k]))
  }

  // The Partial<Person> that updatePerson is given: only the present columns are written.
  datatype PersonUpdate = PersonUpdate(createdAt: Option<int>, properties: Option<Properties>, isIdentified: Option<bool>)

  function Updated(p: Person, u: PersonUpdate): Person {
    p.(createdAt := if u.createdAt.Some? then u.createdAt.value else p.createdAt,
       properties := if u.properties.Some? then u.properties.value else p.properties,
       isIdentified := if u.isIdentified.Some? then u.isIdentified.value else p.isIdentified)
  }

  // UPDATE posthog_person SET ... WHERE id = ...: changes nothing when the row is gone (db.ts:488-506).
  function UpdatePerson(t: Tables, person: nat, u: PersonUpdate): Tables {
    if person in t.persons then t.(persons := t.persons[person := Updated(t.persons[person], u)]) else t
  }

  const IDENTIFY := PersonUpdate(None, None, Some(true))

  // What mergePeople writes to the surviving person, from the two copies it was given
  // (process-event.ts:372-403).
  function MergeUpdate(into: Person, other: Person): PersonUpdate {
    PersonUpdate(Some(if other.createdAt < into.createdAt then other.createdAt else into.createdAt),
                 Some(other.properties + into.properties),
                 Some(into.isIdentified || other.isIdentified))
  }

  // DELETE FROM posthog_person, refused by the foreign key while a distinct id still points there
  // (db.ts:528-530).
  function DeletePerson(t: Tables, person: nat): Result<Tables, DbError> {
    if Referenced(t, person) then Err(DatabaseError) else Ok(t.(persons := t.persons - {person}))
  }

  function KeysOf(team: int, distinctIds: seq<string>): seq<Key> {
    seq(|distinctIds|, i requires 0 <= i < |distinctIds| => Key(team, distinctIds[i]))
  }

  // The transaction of createPerson: one person and its distinct ids, or nothing (db.ts:455-477).
  function CreatePerson(t: Tables, createdAt: int, properties: Properties, team: int, isIdentified: bool, uuid: string,
                        distinctIds: seq<string>): Result<Tables, DbError> {
    var person := Person(t.nextId, team, createdAt, properties, isIdentified, uuid);
    InsertAll(t.(persons := t.persons[t.nextId := person], nextId := t.nextId + 1),
              KeysOf(team, distinctIds), t.nextId)
  }

  function InsertAll(t: Tables, keys: seq<Key>, person: nat): Result<Tables, DbError>
    decreases |keys|
  {
    if keys == [] then Ok(t)
    else
      match InsertDistinctId(t, keys[0], person)
      case Err(e) => Err(e)
      case Ok(t') => InsertAll(t', keys[1..], person)
  }

  // ----- what each statement keeps -----

  lemma InsertKeeps(t: Tables, k: Key, person: nat)
    requires Consistent(t)
    requires person in t.persons ==> t.persons[person].team == k.team
    ensures var r := InsertDistinctId(t, k, person);
            r.Ok? ==> Consistent(r.value) && Grows(t, r.value) && r.value.persons == t.persons
  {
  }

  lemma {:induction false} InsertAllKeeps(t: Tables, keys: seq<Key>, person: nat)
    requires Consistent(t) && person in t.persons
    requires forall k <- keys :: k.team == t.persons[person].team
    ensures var r := InsertAll(t, keys, person);
            r.Ok? ==> Consistent(r.value) && Grows(t, r.value) && r.value.persons == t.persons && r.value.nextId == t.nextId
    decreases |keys|
  {
    if keys != [] {
      var r := InsertDistinctId(t, keys[0], person);
      if r.Ok? {
        InsertKeeps(t, keys[0], person);
        InsertAllKeeps(r.value, keys[1..], person);
      }
    }
  }

  lemma CreateKeeps(t: Tables, createdAt: int, properties: Properties, team: int, isIdentified: bool, uuid: string,
                    distinctIds: seq<string>)
    requires Consistent(t)
    ensures var r := CreatePerson(t, createdAt, properties, team, isIdentified, uuid, distinctIds);
            r.Ok? ==>
              && Consistent(r.value)
              && Grows(t, r.value)
              && r.value.nextId == t.nextId + 1
              && r.value.persons.Keys == t.persons.Keys + {t.nextId}
              && (forall p <- t.persons :: r.value.persons[p] == t.persons[p])
  {
    var person := Person(t.nextId, team, createdAt, properties, isIdentified, uuid);
    var t1 := t.(persons := t.persons[t.nextId := person], nextId := t.nextId + 1);
    InsertAllKeeps(t1, KeysOf(team, distinctIds), t.nextId);
  }

  // The heart of safety: because every id of the source carries the source's team, moving "the rows
  // of that team" moves the whole class, so nothing is split.
  lemma MoveKeeps(t: Tables, source: nat, target: nat, team: int)
    requires Consistent(t)
    requires source in t.persons ==> t.persons[source].team == team
    requires target in t.persons ==> t.persons[target].team == team
    ensures var r := MoveDistinctIds(t, source, target, team);
            r.Ok? ==>
              && Consistent(r.value)
              && Grows(t, r.value)
              && r.value.persons == t.persons
              && (source != target ==> !Referenced(r.value, source))
  {
    var r := MoveDistinctIds(t, source, target, team);
    if r.Ok? {
      forall k | k in t.ids && t.ids[k] == source
        ensures k in RowsOf(t, source, team)
      {
      }
    }
  }

  lemma DeleteKeeps(t: Tables, person: nat)
    requires Consistent(t)
    ensures var r := DeletePerson(t, person);
            r.Ok? ==> Consistent(r.value) && Grows(t, r.value) && r.value.ids == t.ids
  {
  }
}
