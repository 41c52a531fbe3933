/** What building, exporting and restoring do to the graph, row by row. */
module GraphOutcomes {
  import opened Prelude
  import opened MemoryGraph

  // ---------- building ----------

  predicate IsCalled(e: Entity, user: nat, name: string) {
    e.user == user && e.name == name
  }

  /** In every graph that was built: an upsert of a name the user has takes over the fields that are given and keeps the
      others, the row's id and its place; a new name gets a row of its own behind the others, with the given fields and
      an id no other row has. All other rows and all relations stay. */
  lemma UpsertOutcome(steps: seq<Step>, user: nat, name: string, kind: Option<string>, attributes: Option<string>,
                      i: nat)
    requires i < |Run(EMPTY, steps).entities|
    ensures
      var g := Run(EMPTY, steps);
      var after := Upsert(g, user, name, kind, attributes);
      var e, n := g.entities[i], |g.entities|;
      && after.relations == g.relations
      && n <= |after.entities|
      && after.entities[i] == (if IsCalled(e, user, name)
                               then Entity(e.id, user, name, if kind == None then e.kind else kind,
                                           if attributes == None then e.attributes else attributes)
                               else e)
      && (if exists k :: 0 <= k < n && IsCalled(g.entities[k], user, name)
          then |after.entities| == n && after.nextId == g.nextId
          else && |after.entities| == n + 1
               && after.entities[n] == Entity(g.nextId, user, name, kind, attributes)
               && after.nextId == g.nextId + 1 && e.id != g.nextId)
  {
    var g := Run(EMPTY, steps);
    BuiltGraphsAreValid(steps);
    hide Run;
    if k :| 0 <= k < |g.entities| && IsCalled(g.entities[k], user, name) {
      var found := Lookup(g.entities, user, name).value;
      if IsCalled(g.entities[i], user, name) {
        DistinctSameIndex(NameKey, g.entities, i, found);
      }
    } else {
      assert g.entities[i] in g.entities;
    }
  }

  /** A new relation needs both its entities, and must not repeat user, subject, predicate and object of a stored one;
      then it is stored as given behind the others. */
  lemma RelationOutcome(g: Graph, r: Relation)
    requires Consistent(g)
    ensures
      var outcome := AddRelation(g, r);
      var ends := (exists i :: 0 <= i < |g.entities| && g.entities[i].id == r.subjectId)
                  && (exists i :: 0 <= i < |g.entities| && g.entities[i].id == r.objectId);
      var known := exists i :: 0 <= i < |g.relations| && g.relations[i] == r.(confidence := g.relations[i].confidence);
      && (outcome == Failure(MissingEntity) <==> !ends)
      && (outcome == Failure(UniqueViolation) <==> ends && known)
      && (outcome.Success? ==>
            outcome.value == Graph(g.entities, g.relations + [r], g.nextId))
  {
    hide UniqueTriples, DistinctBy;
    AddRelationKeepsValid(g, r);
    if x :| x in g.relations && Triple(x) == Triple(r) {
      var i :| 0 <= i < |g.relations| && g.relations[i] == x;
      assert g.relations[i] == r.(confidence := g.relations[i].confidence);
    }
    if i :| 0 <= i < |g.relations| && g.relations[i] == r.(confidence := g.relations[i].confidence) {
      assert g.relations[i] in g.relations && Triple(g.relations[i]) == Triple(r);
    }
  }

  // ---------- exporting ----------

  /** `name` is the name of the user's entity with this id, if there is one. */
  ghost predicate NameIs(g: Graph, user: nat, id: nat, name: Option<string>) {
    && (name.Some? ==> exists e :: e in g.entities && e.user == user && e.id == id && e.name == name.value)
    && (name == None ==> forall e | e in g.entities && e.user == user :: e.id != id)
  }

  ghost predicate Exported(g: Graph, user: nat, s: Snapshot, picks: seq<nat>, rels: seq<nat>) {
    && Selects((e: Entity) => e.user == user, g.entities, picks) && |s.entities| == |picks|
    && (forall k | 0 <= k < |picks| ::
          && picks[k] < |g.entities|
          && s.entities[k] == EntityItem(g.entities[picks[k]].name, g.entities[picks[k]].kind,
                                         g.entities[picks[k]].attributes))
    && Selects((r: Relation) => r.user == user, g.relations, rels) && |s.relations| == |rels|
    && (forall k | 0 <= k < |rels| ::
          && rels[k] < |g.relations|
          && s.relations[k].predicateName == g.relations[rels[k]].predicateName
          && s.relations[k].confidence == g.relations[rels[k]].confidence
          && NameIs(g, user, g.relations[rels[k]].subjectId, s.relations[k].subjectName)
          && NameIs(g, user, g.relations[rels[k]].objectId, s.relations[k].objectName))
  }

  /** An export holds exactly the user's entities, in order and with all their fields, and exactly the user's
      relations, in order, with the names of the user's entities they end in. */
  lemma SnapshotOutcome(g: Graph, user: nat)
    ensures exists picks, rels :: Exported(g, user, TakeSnapshot(g, user), picks, rels)
  {
    hide NameIs, Filter;
    var s, mine, ours := TakeSnapshot(g, user), (e: Entity) => e.user == user, (r: Relation) => r.user == user;
    FilterCongruent(mine, OwnedBy(user), g.entities);
    FilterCongruent(ours, RelatedBy(user), g.relations);
    var picks := FilterSelects(mine, g.entities);
    var rels := FilterSelects(ours, g.relations);
    forall id: nat
      ensures NameIs(g, user, id, NameById(Own(g, user), id))
    {
      ExportedName(g, user, id);
    }
    assert Exported(g, user, s, picks, rels);
  }

  lemma ExportedName(g: Graph, user: nat, id: nat)
    ensures NameIs(g, user, id, NameById(Own(g, user), id))
  {
    var own := Own(g, user);
    NameByIdFound(own, id);
    forall e
      ensures e in own <==> e in g.entities && e.user == user
    {
      FilterMember(OwnedBy(user), g.entities, e);
    }
    if e :| e in g.entities && e.user == user && e.id == id {
      var i :| 0 <= i < |own| && own[i] == e;
    }
  }

  // ---------- restoring ----------

  /** `e` was made from the first of the items with its name. */
  ghost predicate MadeFrom(items: seq<EntityItem>, e: Entity, i: int) {
    && 0 <= i < |items| && items[i] == EntityItem(e.name, e.kind, e.attributes)
    && forall j | 0 <= j < i :: items[j].name != e.name
  }

  ghost predicate NewFrom(g: Graph, user: nat, items: seq<EntityItem>, e: Entity) {
    && e.user == user && e.id >= g.nextId
    && (forall x | x in g.entities :: !IsCalled(x, user, e.name))
    && exists i :: MadeFrom(items, e, i)
  }

  lemma {:induction false} RestoredEntities(g: Graph, user: nat, items: seq<EntityItem>)
    ensures
      var after := RestoreItems(g, user, items).0;
      && g.entities <= after.entities && g.nextId <= after.nextId
      && forall k | |g.entities| <= k < |after.entities| :: NewFrom(g, user, items, after.entities[k])
  {
    if items == [] {
    } else {
      var n := |items| - 1;
      var front, item := items[..n], items[n];
      assert items == front + [item];
      RestoredEntities(g, user, front);
      RestoredIds(g, user, front);
      RestoreItemsSnoc(g, user, front, item);
      var (g1, ids) := RestoreItems(g, user, front);
      hide RestoreItems;
      var after := RestoreItem(g1, ids, user, item).0;
      forall k | |g.entities| <= k < |after.entities|
        ensures NewFrom(g, user, items, after.entities[k])
      {
        if k < |g1.entities| {
          NewFromMore(g, user, front, item, after.entities[k]);
        } else {
          LastIsNew(g, g1, ids, user, front, item);
        }
      }
    }
  }

  lemma NewFromMore(g: Graph, user: nat, front: seq<EntityItem>, item: EntityItem, e: Entity)
    requires NewFrom(g, user, front, e)
    ensures NewFrom(g, user, front + [item], e)
  {
    var i :| MadeFrom(front, e, i);
    assert MadeFrom(front + [item], e, i);
  }

  lemma LastIsNew(g: Graph, g1: Graph, ids: map<string, nat>, user: nat, front: seq<EntityItem>, item: EntityItem)
    requires g.entities <= g1.entities && g.nextId <= g1.nextId && IdsAreEntities(ids, g1.entities, user, front)
    requires Lookup(g1.entities, user, item.name) == None
    ensures NewFrom(g, user, front + [item], Entity(g1.nextId, user, item.name, item.kind, item.attributes))
  {
    var e := Entity(g1.nextId, user, item.name, item.kind, item.attributes);
    forall x | x in g1.entities
      ensures NameKey(x) != (user, item.name)
    {
      var k :| 0 <= k < |g1.entities| && g1.entities[k] == x;
    }
    forall j | 0 <= j < |front|
      ensures front[j].name != item.name
    {
      assert front[j] in front;
      assert front[j].name in ids;
    }
    assert MadeFrom(front + [item], e, |front|);
  }

  /** `row` is the relation between the user's entities of these two names. */
  ghost predicate RowFor(after: Graph, user: nat, item: RelationItem, row: Relation) {
    && Named(item) && row.user == user && row.predicateName == item.predicateName && row.confidence == item.confidence
    && (exists e :: e in after.entities && IsCalled(e, user, item.subjectName.value) && e.id == row.subjectId)
    && (exists e :: e in after.entities && IsCalled(e, user, item.objectName.value) && e.id == row.objectId)
  }

  ghost predicate HasNamed(g: Graph, user: nat, name: string) {
    exists e :: e in g.entities && IsCalled(e, user, name)
  }

  function IsResolvable(s: Snapshot): RelationItem -> bool {
    (item: RelationItem) => Resolvable(s, item)
  }

  ghost predicate Restored(g: Graph, after: Graph, user: nat, s: Snapshot, picks: seq<nat>) {
    var n := |g.relations|;
    && g.entities <= after.entities && g.relations <= after.relations
    && (forall k | |g.entities| <= k < |after.entities| :: NewFrom(g, user, s.entities, after.entities[k]))
    && (forall i | 0 <= i < |s.entities| :: HasNamed(after, user, s.entities[i].name))
    && Selects(IsResolvable(s), s.relations, picks) && |after.relations| == n + |picks|
    && (forall k | 0 <= k < |picks| ::
          picks[k] < |s.relations| && RowFor(after, user, s.relations[picks[k]], after.relations[n + k]))
  }

  lemma {:induction false} ResolvedRows(ids: map<string, nat>, user: nat, rels: seq<RelationItem>)
    ensures
      var resolved := Filter((item: RelationItem) => Resolves(ids, item), rels);
      var rows := FlatMap(Resolve(ids, user), rels);
      && |rows| == |resolved| && forall k | 0 <= k < |rows| :: Resolve(ids, user)(resolved[k]) == [rows[k]]
  {
    if rels == [] {
    } else {
      ResolvedRows(ids, user, rels[1..]);
    }
  }

  /** What a successful restore adds, for any snapshot and any graph: an entity for each name of the snapshot that
      the user has none of, made from its first item; and, in order, one relation for each relation of the snapshot
      whose two names are names of its entities, between the user's entities of these names. Nothing else. */
  lemma RestoreOutcome(g: Graph, user: nat, s: Snapshot)
    requires Restore(g, user, s).Success?
    ensures exists picks :: Restored(g, Restore(g, user, s).value, user, s, picks)
  {
    hide UniqueTriples, RestoreItems, FlatMap, Selects, IdsAreEntities, NewFrom, Resolves, Resolvable, RowFor, HasNamed;
    var (g1, ids) := RestoreItems(g, user, s.entities);
    RestoredEntities(g, user, s.entities);
    RestoredIds(g, user, s.entities);
    RestoreItemsKeepsRelations(g, user, s.entities);
    var resolves := (item: RelationItem) => Resolves(ids, item);
    var after := Restore(g, user, s).value;
    var picks := FilterSelects(resolves, s.relations);
    ResolvedRows(ids, user, s.relations);
    forall item
      ensures resolves(item) <==> IsResolvable(s)(item)
    {
      ResolvesIsResolvable(ids, g1, user, s, item);
    }
    SelectsCongruent(resolves, IsResolvable(s), s.relations, picks);
    forall i | 0 <= i < |s.entities|
      ensures HasNamed(after, user, s.entities[i].name)
    {
      HasEntityNamed(ids, after, user, s.entities, i);
    }
    var n := |g.relations|;
    forall k | 0 <= k < |picks|
      ensures RowFor(after, user, s.relations[picks[k]], after.relations[n + k])
    {
      RowIsFor(ids, g1, after, user, s.entities, s.relations[picks[k]], after.relations[n + k]);
    }
    assert g.entities <= after.entities && g.relations <= after.relations && |after.relations| == n + |picks|;
    assert Restored(g, after, user, s, picks);
  }

  lemma SelectsCongruent<T>(p: T -> bool, q: T -> bool, s: seq<T>, picks: seq<nat>)
    requires Selects(p, s, picks) && forall i | 0 <= i < |s| :: p(s[i]) == q(s[i])
    ensures Selects(q, s, picks)
  {
  }

  lemma HasEntityNamed(ids: map<string, nat>, after: Graph, user: nat, items: seq<EntityItem>, i: nat)
    requires IdsAreEntities(ids, after.entities, user, items) && i < |items|
    ensures HasNamed(after, user, items[i].name)
  {
    var name := items[i].name;
    assert name in ids by {
      assert items[i] in items;
    }
    var e :| e in after.entities && NameKey(e) == (user, name) && e.id == ids[name];
    assert IsCalled(e, user, name);
  }

  lemma RowIsFor(ids: map<string, nat>, g1: Graph, after: Graph, user: nat, items: seq<EntityItem>, item: RelationItem,
                 row: Relation)
    requires IdsAreEntities(ids, g1.entities, user, items) && after.entities == g1.entities
    requires Resolve(ids, user)(item) == [row]
    ensures RowFor(after, user, item, row)
  {
    var e :| e in g1.entities && NameKey(e) == (user, item.subjectName.value) && e.id == ids[item.subjectName.value];
    var f :| f in g1.entities && NameKey(f) == (user, item.objectName.value) && f.id == ids[item.objectName.value];
    assert IsCalled(e, user, item.subjectName.value) && IsCalled(f, user, item.objectName.value);
  }
}
