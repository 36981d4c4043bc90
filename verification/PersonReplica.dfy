// The Kafka messages about persons, and the tables that a consumer rebuilds from them (src/utils/db/db.ts:443-675).
module PersonReplica {
  import opened PersonTables

  // One message value of the person topic or of the person_unique_id topic.
  datatype Message =
    | PersonMessage(uuid: string, row: ReplicaPerson, isDeleted: bool)
    | DistinctIdMessage(key: Key, personUuid: string, isDeleted: bool)

  // created_at travels at second precision.
  datatype ReplicaPerson = ReplicaPerson(createdAtSecond: int, properties: Properties, team: int, isIdentified: bool)

  // The consumer's tables: persons by uuid, and the set of live (distinct id, person) rows.
  datatype Replica = Replica(persons: map<string, ReplicaPerson>, ids: set<(Key, string)>)

  const EMPTY_REPLICA := Replica(map[], {})

  function RowOf(p: Person): ReplicaPerson {
    ReplicaPerson(p.createdAt / 1000, p.properties, p.team, p.isIdentified)
  }

  function PersonUpdateMessage(p: Person, isDeleted: bool): Message {
    PersonMessage(p.uuid, RowOf(p), isDeleted)
  }

  function Apply(r: Replica, m: Message): Replica {
    match m
    case PersonMessage(u, row, isDeleted) =>
      r.(persons := if isDeleted then r.persons - {u} else r.persons[u := row])
    case DistinctIdMessage(key, u, isDeleted) =>
      r.(ids := if isDeleted then r.ids - {(key, u)} else r.ids + {(key, u)})
  }

  function Replay(messages: seq<Message>): Replica {
    if messages == [] then EMPTY_REPLICA
    else Apply(Replay(messages[..|messages| - 1]), messages[|messages| - 1])
  }

  lemma ReplayOne(messages: seq<Message>, m: Message)
    ensures Replay(messages + [m]) == Apply(Replay(messages), m)
  {
    assert (messages + [m])[..|messages|] == messages;
  }

  ghost predicate UuidsUnique(ps: map<nat, Person>) {
    forall p, q :: p in ps && q in ps && ps[p].uuid == ps[q].uuid ==> p == q
  }

  ghost predicate HasUuid(ps: map<nat, Person>, u: string) {
    exists p :: p in ps && ps[p].uuid == u
  }

  // The columns of a replicated row are those of the person, with the time at which it was created to the second.
  predicate HasColumns(row: ReplicaPerson, p: Person) {
    && row.properties == p.properties && row.team == p.team && row.isIdentified == p.isIdentified
    && 1000 * row.createdAtSecond <= p.createdAt < 1000 * row.createdAtSecond + 1000
  }

  // The replica has a row for each person, with the person's columns, and no others.
  ghost predicate PersonsMirrored(rs: map<string, ReplicaPerson>, ps: map<nat, Person>) {
    && (forall p :: p in ps ==> ps[p].uuid in rs && HasColumns(rs[ps[p].uuid], ps[p]))
    && (forall u :: u in rs ==> HasUuid(ps, u))
  }

  ghost predicate Linked(t: Tables, k: Key, u: string) {
    k in t.ids && t.ids[k] in t.persons && t.persons[t.ids[k]].uuid == u
  }

  ghost predicate IdsMirrored(rs: set<(Key, string)>, t: Tables) {
    forall k, u :: (k, u) in rs <==> Linked(t, k, u)
  }

  // The replica holds exactly the persons and the id mapping of the tables.
  ghost predicate Mirrors(r: Replica, t: Tables) {
    PersonsMirrored(r.persons, t.persons) && IdsMirrored(r.ids, t)
  }

  // Tables and a message log that rebuilds them.
  ghost predicate Synced(t: Tables, messages: seq<Message>) {
    Consistent(t) && UuidsUnique(t.persons) && Mirrors(Replay(messages), t)
  }

  lemma ReplayedColumns(t: Tables, messages: seq<Message>, p: nat)
    requires Synced(t, messages) && p in t.persons
    ensures var person, rows := t.persons[p], Replay(messages).persons;
            && person.uuid in rows
            && rows[person.uuid].properties == person.properties && rows[person.uuid].team == person.team
            && rows[person.uuid].isIdentified == person.isIdentified
            && 1000 * rows[person.uuid].createdAtSecond <= person.createdAt
            && person.createdAt < 1000 * rows[person.uuid].createdAtSecond + 1000
  {
  }

  // ----- one lemma for each statement that emits messages -----

  lemma InsertMirrored(rs: map<string, ReplicaPerson>, ps: map<nat, Person>, p: Person)
    requires PersonsMirrored(rs, ps) && UuidsUnique(ps)
    requires p.id !in ps && !HasUuid(ps, p.uuid)
    ensures PersonsMirrored(rs[p.uuid := RowOf(p)], ps[p.id := p]) && UuidsUnique(ps[p.id := p])
  {
    var rs', ps' := rs[p.uuid := RowOf(p)], ps[p.id := p];
    forall u | u in rs'
      ensures HasUuid(ps', u)
    {
      if u == p.uuid {
        assert p.id in ps' && ps'[p.id].uuid == u;
      } else {
        var q :| q in ps && ps[q].uuid == u;
        assert q in ps' && ps'[q].uuid == u;
      }
    }
  }

  lemma UpdateMirrored(rs: map<string, ReplicaPerson>, ps: map<nat, Person>, p: nat, p': Person)
    requires PersonsMirrored(rs, ps) && UuidsUnique(ps)
    requires p in ps && p'.uuid == ps[p].uuid
    ensures PersonsMirrored(rs[p'.uuid := RowOf(p')], ps[p := p']) && UuidsUnique(ps[p := p'])
  {
    var rs', ps' := rs[p'.uuid := RowOf(p')], ps[p := p'];
    forall u | u in rs'
      ensures HasUuid(ps', u)
    {
      var q :| q in ps && ps[q].uuid == u;
      assert q in ps' && ps'[q].uuid == u;
    }
  }

  lemma DeleteMirrored(rs: map<string, ReplicaPerson>, ps: map<nat, Person>, p: nat)
    requires PersonsMirrored(rs, ps) && UuidsUnique(ps) && p in ps
    ensures PersonsMirrored(rs - {ps[p].uuid}, ps - {p}) && UuidsUnique(ps - {p})
  {
    var rs', ps' := rs - {ps[p].uuid}, ps - {p};
    forall u | u in rs'
      ensures HasUuid(ps', u)
    {
      var q :| q in ps && ps[q].uuid == u;
      assert q in ps' && ps'[q].uuid == u;
    }
  }

  lemma LinkMirrored(rs: set<(Key, string)>, t: Tables, k: Key, person: nat)
    requires IdsMirrored(rs, t) && k !in t.ids && person in t.persons
    ensures IdsMirrored(rs + {(k, t.persons[person].uuid)}, t.(ids := t.ids[k := person]))
  {
  }

  lemma RelinkMirrored(rs: set<(Key, string)>, t: Tables, k: Key, target: nat)
    requires IdsMirrored(rs, t) && UuidsUnique(t.persons)
    requires k in t.ids && t.ids[k] in t.persons && target in t.persons && target != t.ids[k]
    ensures IdsMirrored(rs + {(k, t.persons[target].uuid)} - {(k, t.persons[t.ids[k]].uuid)},
                        t.(ids := t.ids[k := target]))
  {
  }

  // Each distinct id keeps its person, and each such person its uuid.
  lemma LinksStay(rs: set<(Key, string)>, t: Tables, t': Tables)
    requires Consistent(t) && t'.ids == t.ids && IdsMirrored(rs, t)
    requires forall p <- t.persons :: p in t'.persons && t'.persons[p].uuid == t.persons[p].uuid
    ensures IdsMirrored(rs, t')
  {
  }

  lemma NewIsConsistent(t: Tables, p: Person)
    requires Consistent(t) && p.id == t.nextId
    ensures p.id !in t.persons && Consistent(t.(persons := t.persons[p.id := p], nextId := t.nextId + 1))
  {
  }

  lemma UpdateIsConsistent(t: Tables, person: nat, update: PersonUpdate)
    requires Consistent(t) && person in t.persons
    ensures Consistent(UpdatePerson(t, person, update))
  {
  }

  lemma InsertSynced(t: Tables, messages: seq<Message>, p: Person)
    requires Synced(t, messages)
    requires p.id == t.nextId && !HasUuid(t.persons, p.uuid)
    ensures Synced(t.(persons := t.persons[p.id := p], nextId := t.nextId + 1), messages + [PersonUpdateMessage(p, false)])
  {
    hide PersonsMirrored, IdsMirrored, UuidsUnique, HasUuid, Replay, Consistent;
    ReplayOne(messages, PersonUpdateMessage(p, false));
    NewIsConsistent(t, p);
    InsertMirrored(Replay(messages).persons, t.persons, p);
    LinksStay(Replay(messages).ids, t, t.(persons := t.persons[p.id := p], nextId := t.nextId + 1));
  }

  lemma UpdateSynced(t: Tables, messages: seq<Message>, person: nat, update: PersonUpdate)
    requires Synced(t, messages) && person in t.persons
    ensures Synced(UpdatePerson(t, person, update),
                   messages + [PersonUpdateMessage(Updated(t.persons[person], update), false)])
  {
    hide PersonsMirrored, IdsMirrored, UuidsUnique, HasUuid, Replay, Consistent;
    var p' := Updated(t.persons[person], update);
    ReplayOne(messages, PersonUpdateMessage(p', false));
    UpdateIsConsistent(t, person, update);
    UpdateMirrored(Replay(messages).persons, t.persons, person, p');
    LinksStay(Replay(messages).ids, t, UpdatePerson(t, person, update));
  }

  // A worker's copy of a row, or of a row that is gone since.  The other columns may be out of date.
  ghost predicate IsCopy(t: Tables, p: Person) {
    if p.id in t.persons then t.persons[p.id].uuid == p.uuid && t.persons[p.id].team == p.team
    else !HasUuid(t.persons, p.uuid)
  }

  // Two states of a person that look alike at second precision.
  predicate Agree(p: Person, q: Person) {
    && p.properties == q.properties && p.team == q.team && p.isIdentified == q.isIdentified
    && p.createdAt / 1000 == q.createdAt / 1000
  }

  // updatePerson tells Kafka what its caller's copy says, not what the row says.  That is right exactly when the
  // row is still there and agrees with the copy in the columns that are not written.
  lemma UpdateSyncedExactly(t: Tables, messages: seq<Message>, person: Person, update: PersonUpdate)
    requires Synced(t, messages) && IsCopy(t, person)
    ensures Synced(UpdatePerson(t, person.id, update),
                   messages + [PersonUpdateMessage(Updated(person, update), false)])
            <==> person.id in t.persons && Agree(Updated(person, update), Updated(t.persons[person.id], update))
  {
    var message := PersonUpdateMessage(Updated(person, update), false);
    ReplayOne(messages, message);
    var t' := UpdatePerson(t, person.id, update);
    assert HasColumns(Replay(messages + [message]).persons[person.uuid], Updated(person, update));
    if person.id in t.persons {
      var now := Updated(t.persons[person.id], update);
      UpdateSynced(t, messages, person.id, update);
      assert t'.persons[person.id] == now;
      AgreeExactly(RowOf(Updated(person, update)), Updated(person, update), now);
      AgreeExactly(RowOf(now), now, Updated(person, update));
      hide IdsMirrored, UuidsUnique, Consistent, Replay, HasColumns;
    } else {
      assert !HasUuid(t'.persons, person.uuid);
    }
  }

  lemma AgreeExactly(row: ReplicaPerson, p: Person, q: Person)
    requires HasColumns(row, p)
    ensures HasColumns(row, q) <==> Agree(p, q)
  {
  }

  lemma LinkSynced(t: Tables, messages: seq<Message>, k: Key, person: nat)
    requires Synced(t, messages)
    requires person in t.persons && t.persons[person].team == k.team && k !in t.ids
    ensures Synced(t.(ids := t.ids[k := person]), messages + [DistinctIdMessage(k, t.persons[person].uuid, false)])
  {
    ReplayOne(messages, DistinctIdMessage(k, t.persons[person].uuid, false));
    LinkMirrored(Replay(messages).ids, t, k, person);
    hide IdsMirrored, PersonsMirrored, Replay, UuidsUnique;
  }

  // The pair of messages of one moved row: linked to the target, no longer linked to the source.
  lemma RelinkSynced(t: Tables, messages: seq<Message>, k: Key, target: nat)
    requires Synced(t, messages)
    requires k in t.ids && target in t.persons && target != t.ids[k] && t.persons[target].team == k.team
    ensures Synced(t.(ids := t.ids[k := target]),
                   messages + [DistinctIdMessage(k, t.persons[target].uuid, false),
                               DistinctIdMessage(k, t.persons[t.ids[k]].uuid, true)])
  {
    var linked := DistinctIdMessage(k, t.persons[target].uuid, false);
    var unlinked := DistinctIdMessage(k, t.persons[t.ids[k]].uuid, true);
    ReplayOne(messages, linked);
    ReplayOne(messages + [linked], unlinked);
    assert messages + [linked] + [unlinked] == messages + [linked, unlinked];
    RelinkMirrored(Replay(messages).ids, t, k, target);
    hide IdsMirrored, PersonsMirrored, Replay, UuidsUnique;
  }

  lemma DeleteSynced(t: Tables, messages: seq<Message>, p: Person)
    requires Synced(t, messages) && IsCopy(t, p) && !Referenced(t, p.id)
    ensures Synced(t.(persons := t.persons - {p.id}), messages + [PersonUpdateMessage(p, true)])
  {
    ReplayOne(messages, PersonUpdateMessage(p, true));
    if p.id in t.persons {
      DeleteMirrored(Replay(messages).persons, t.persons, p.id);
    } else {
      assert t.persons - {p.id} == t.persons;
      assert Replay(messages).persons - {p.uuid} == Replay(messages).persons;
    }
    DeleteKeeps(t, p.id);
    forall k, u
      ensures Linked(t.(persons := t.persons - {p.id}), k, u) <==> Linked(t, k, u)
    {
    }
  }
}
