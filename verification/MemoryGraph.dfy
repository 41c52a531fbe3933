/** The entity-relation graph: building it, exporting one user's part, and restoring a snapshot. */
module MemoryGraph {
  import opened Prelude

  datatype Entity = Entity(id: nat, user: nat, name: string, kind: Option<string>, attributes: Option<string>)

  datatype Relation = Relation(user: nat, subjectId: nat, predicateName: string, objectId: nat, confidence: real)

  /** All users' rows; `nextId` is where fresh ids come from. */
  datatype Graph = Graph(entities: seq<Entity>, relations: seq<Relation>, nextId: nat)

  datatype Error = UniqueViolation | MissingEntity

  datatype EntityItem = EntityItem(name: string, kind: Option<string>, attributes: Option<string>)

  datatype RelationItem = RelationItem(subjectName: Option<string>, objectName: Option<string>, predicateName: string,
                                       confidence: real)

  datatype Snapshot = Snapshot(entities: seq<EntityItem>, relations: seq<RelationItem>)

  // ---------- rows and constraints ----------

  function OwnedBy(user: nat): Entity -> bool {
    (e: Entity) => e.user == user
  }

  function RelatedBy(user: nat): Relation -> bool {
    (r: Relation) => r.user == user
  }

  function Own(g: Graph, user: nat): seq<Entity> {
    Filter(OwnedBy(user), g.entities)
  }

  function IdOf(e: Entity): nat {
    e.id
  }

  function NameKey(e: Entity): (nat, string) {
    (e.user, e.name)
  }

  function Triple(r: Relation): (nat, nat, string, nat) {
    (r.user, r.subjectId, r.predicateName, r.objectId)
  }

  predicate UniqueTriples(relations: seq<Relation>) {
    forall i, j | 0 <= i < j < |relations| :: Triple(relations[i]) != Triple(relations[j])
  }

  /** Primary keys, the unique name per user, the unique triple per user, and endpoints whose ids were given out. */
  ghost predicate Consistent(g: Graph) {
    && DistinctBy(IdOf, g.entities) && (forall e | e in g.entities :: e.id < g.nextId)
    && DistinctBy(NameKey, g.entities)
    && UniqueTriples(g.relations)
    && (forall r | r in g.relations :: r.subjectId < g.nextId && r.objectId < g.nextId)
  }

  // ---------- building ----------

  function Lookup(entities: seq<Entity>, user: nat, name: string): (r: Option<nat>)
    ensures r == None <==> forall i | 0 <= i < |entities| :: NameKey(entities[i]) != (user, name)
    ensures r.Some? ==> r.value < |entities| && NameKey(entities[r.value]) == (user, name)
  {
    if entities == [] then None
    else
      var n := |entities| - 1;
      if NameKey(entities[n]) == (user, name) then Some(n) else Lookup(entities[..n], user, name)
  }

  function Upsert(g: Graph, user: nat, name: string, kind: Option<string>, attributes: Option<string>): Graph {
    match Lookup(g.entities, user, name)
    case None => Graph(g.entities + [Entity(g.nextId, user, name, kind, attributes)], g.relations, g.nextId + 1)
    case Some(i) =>
      var e := g.entities[i];
      g.(entities := g.entities[i := e.(kind := if kind.Some? then kind else e.kind,
                                         attributes := if attributes.Some? then attributes else e.attributes)])
  }

  predicate HasEntity(g: Graph, id: nat) {
    exists i :: 0 <= i < |g.entities| && g.entities[i].id == id
  }

  function AddRelation(g: Graph, r: Relation): Result<Graph, Error> {
    if !HasEntity(g, r.subjectId) || !HasEntity(g, r.objectId) then Failure(MissingEntity)
    else if !UniqueTriples(g.relations + [r]) then Failure(UniqueViolation)
    else Success(g.(relations := g.relations + [r]))
  }

  // ---------- snapshot ----------

  function ToItem(e: Entity): EntityItem {
    EntityItem(e.name, e.kind, e.attributes)
  }

  /** `names.get(id)` over the user's own entities. */
  function NameById(own: seq<Entity>, id: nat): Option<string> {
    if own == [] then None
    else
      var n := |own| - 1;
      if own[n].id == id then Some(own[n].name) else NameById(own[..n], id)
  }

  function ToRelationItem(own: seq<Entity>): Relation -> RelationItem {
    (r: Relation) => RelationItem(NameById(own, r.subjectId), NameById(own, r.objectId), r.predicateName, r.confidence)
  }

  function TakeSnapshot(g: Graph, user: nat): Snapshot {
    Snapshot(Map(ToItem, Own(g, user)), Map(ToRelationItem(Own(g, user)), Filter(RelatedBy(user), g.relations)))
  }

  // ---------- restore ----------

  /** Entities already present are found by name; the others are added. */
  function RestoreItems(g: Graph, user: nat, items: seq<EntityItem>): (Graph, map<string, nat>) {
    if items == [] then (g, map[])
    else
      var n := |items| - 1;
      var (g1, ids) := RestoreItems(g, user, items[..n]);
      RestoreItem(g1, ids, user, items[n])
  }

  function RestoreItem(g: Graph, ids: map<string, nat>, user: nat, item: EntityItem): (Graph, map<string, nat>) {
    match Lookup(g.entities, user, item.name)
    case Some(i) => (g, ids[item.name := g.entities[i].id])
    case None =>
      (Graph(g.entities + [Entity(g.nextId, user, item.name, item.kind, item.attributes)], g.relations, g.nextId + 1),
       ids[item.name := g.nextId])
  }

  function Resolve(ids: map<string, nat>, user: nat): RelationItem -> seq<Relation> {
    (item: RelationItem) =>
      if item.subjectName.Some? && item.objectName.Some? && item.subjectName.value in ids
          && item.objectName.value in ids
      then [Relation(user, ids[item.subjectName.value], item.predicateName, ids[item.objectName.value],
                     item.confidence)]
      else []
  }

  /** One transaction: a repeated triple fails the commit and leaves the graph as it was. */
  function Restore(g: Graph, user: nat, s: Snapshot): Result<Graph, Error> {
    var (g1, ids) := RestoreItems(g, user, s.entities);
    var added := FlatMap(Resolve(ids, user), s.relations);
    if UniqueTriples(g1.relations + added) then Success(g1.(relations := g1.relations + added))
    else Failure(UniqueViolation)
  }

  class MemoryGraphService {
    var entities: seq<Entity>
    var relations: seq<Relation>
    var nextId: nat

    function St(): Graph
      reads this
    {
      Graph(entities, relations, nextId)
    }

    ghost predicate Valid()
      reads this
    {
      Consistent(St())
    }

    constructor ()
      ensures St() == Graph([], [], 0) && Valid()
    {
      entities, relations, nextId := [], [], 0;
    }

    method UpsertEntity(user: nat, name: string, kind: Option<string>, attributes: Option<string>)
      returns (entity: Entity)
      modifies this
      ensures St() == Upsert(old(St()), user, name, kind, attributes)
      ensures entity in entities && NameKey(entity) == (user, name)
      ensures old(Valid()) ==> Valid()
    {
      hide Consistent;
      StepPreserves(St(), UpsertStep(user, name, kind, attributes));
      var existing := Lookup(entities, user, name);
      if existing == None {
        entity := Entity(nextId, user, name, kind, attributes);
        entities := entities + [entity];
        nextId := nextId + 1;
      } else {
        entity := entities[existing.value];
        if kind.Some? {
          entity := entity.(kind := kind);
        }
        if attributes.Some? {
          entity := entity.(attributes := attributes);
        }
        entities := entities[existing.value := entity];
        assert entities[existing.value] == entity;
      }
    }

    method AddRelationRow(r: Relation) returns (outcome: Option<Error>)
      modifies this
      ensures match AddRelation(old(St()), r)
              case Success(g) => outcome == None && St() == g
              case Failure(e) => outcome == Some(e) && St() == old(St())
      ensures old(Valid()) ==> Valid()
    {
      hide Consistent;
      StepPreserves(St(), RelationStep(r));
      if !HasEntity(St(), r.subjectId) || !HasEntity(St(), r.objectId) {
        return Some(MissingEntity);
      }
      if !UniqueTriples(relations + [r]) {
        return Some(UniqueViolation);
      }
      relations := relations + [r];
      outcome := None;
    }

    /** The first loop of the restore: every item ends up with an id. */
    method RestoreEntityRows(user: nat, items: seq<EntityItem>) returns (nameToId: map<string, nat>, restored: nat)
      modifies this
      ensures (St(), nameToId) == RestoreItems(old(St()), user, items)
      ensures restored == |entities| - |old(entities)|
    {
      nameToId, restored := map[], 0;
      for i := 0 to |items|
        invariant (St(), nameToId) == RestoreItems(old(St()), user, items[..i])
        invariant restored == |entities| - |old(entities)|
      {
        hide RestoreItems, Lookup;
        var item := items[i];
        assert items[..i + 1] == items[..i] + [item];
        RestoreItemsSnoc(old(St()), user, items[..i], item);
        var found := Lookup(entities, user, item.name);
        if found.Some? {
          nameToId := nameToId[item.name := entities[found.value].id];
          continue;
        }
        entities := entities + [Entity(nextId, user, item.name, item.kind, item.attributes)];
        nameToId := nameToId[item.name := nextId];
        nextId := nextId + 1;
        restored := restored + 1;
      }
      assert items[..|items|] == items;
    }

    /** The second loop: relations whose two names were seen are added. */
    method RestoreRelationRows(user: nat, nameToId: map<string, nat>, rels: seq<RelationItem>) returns (restored: nat)
      modifies this`relations
      ensures relations == old(relations) + FlatMap(Resolve(nameToId, user), rels)
      ensures restored == |relations| - |old(relations)|
    {
      restored := 0;
      ghost var added: seq<Relation> := [];
      for i := 0 to |rels|
        invariant added == FlatMap(Resolve(nameToId, user), rels[..i])
        invariant relations == old(relations) + added && restored == |added|
      {
        hide FlatMap;
        var rel := rels[i];
        assert rels[..i + 1] == rels[..i] + [rel];
        FlatMapSnoc(Resolve(nameToId, user), rels[..i], rel);
        var subjectId := if rel.subjectName.Some? && rel.subjectName.value in nameToId
            then Some(nameToId[rel.subjectName.value]) else None;
        var objectId := if rel.objectName.Some? && rel.objectName.value in nameToId
            then Some(nameToId[rel.objectName.value]) else None;
        if subjectId == None || objectId == None {
          continue;
        }
        var row := Relation(user, subjectId.value, rel.predicateName, objectId.value, rel.confidence);
        AppendAssoc(old(relations), added, [row]);
        relations := relations + [row];
        added := added + [row];
        restored := restored + 1;
      }
      assert rels[..|rels|] == rels;
    }

    /** Reports how many entities and relations were added. */
    method RestoreEntities(user: nat, s: Snapshot) returns (outcome: Result<(nat, nat), Error>)
      modifies this
      ensures match Restore(old(St()), user, s)
              case Success(g) =>
                && St() == g && outcome.Success?
                && outcome.value.0 == |entities| - |old(entities)| && outcome.value.1 == |relations| - |old(relations)|
              case Failure(e) => outcome == Failure(e) && St() == old(St())
      ensures old(Valid()) ==> Valid()
    {
      StepPreserves(St(), RestoreStep(user, s));
      hide Consistent, UniqueTriples, RestoreItems, FlatMap;
      var savedEntities, savedRelations, savedId := entities, relations, nextId;
      RestoreItemsKeepsRelations(St(), user, s.entities);
      var nameToId, restoredEntities := RestoreEntityRows(user, s.entities);
      var restoredRelations := RestoreRelationRows(user, nameToId, s.relations);
      if UniqueTriples(relations) {
        outcome := Success((restoredEntities, restoredRelations));
      } else {
        entities, relations, nextId := savedEntities, savedRelations, savedId;
        outcome := Failure(UniqueViolation);
      }
    }
  }

  lemma {:induction false} RestoreItemsKeepsRelations(g: Graph, user: nat, items: seq<EntityItem>)
    ensures RestoreItems(g, user, items).0.relations == g.relations
  {
    if items == [] {
    } else {
      RestoreItemsKeepsRelations(g, user, items[..|items| - 1]);
    }
  }

  // ---------- validity ----------

  lemma UpsertKeepsValid(g: Graph, user: nat, name: string, kind: Option<string>, attributes: Option<string>)
    requires Consistent(g)
    ensures Consistent(Upsert(g, user, name, kind, attributes))
  {
    match Lookup(g.entities, user, name)
    case None => AddKeepsValid(g, Entity(g.nextId, user, name, kind, attributes));
    case Some(i) =>
      var after := Upsert(g, user, name, kind, attributes);
      forall e | e in after.entities
        ensures e.id < after.nextId
      {
        var k :| 0 <= k < |after.entities| && after.entities[k] == e;
        assert e.id == g.entities[k].id && g.entities[k] in g.entities;
      }
  }

  lemma AddKeepsValid(g: Graph, e: Entity)
    requires Consistent(g) && e.id == g.nextId
    requires forall i | 0 <= i < |g.entities| :: NameKey(g.entities[i]) != NameKey(e)
    ensures Consistent(Graph(g.entities + [e], g.relations, g.nextId + 1))
  {
  }

  lemma AddRelationKeepsValid(g: Graph, r: Relation)
    requires Consistent(g)
    ensures AddRelation(g, r).Success? ==> Consistent(AddRelation(g, r).value)
    ensures AddRelation(g, r).Success? <==>
              HasEntity(g, r.subjectId) && HasEntity(g, r.objectId) && forall x | x in g.relations ::
                  Triple(x) != Triple(r)
  {
    var all := g.relations + [r];
    if x :| x in g.relations && Triple(x) == Triple(r) {
      RepeatedTriple(g.relations, [r], x, r);
    } else {
      forall i, j | 0 <= i < j < |all|
        ensures Triple(all[i]) != Triple(all[j])
      {
        assert all[i] == g.relations[i] && all[i] in g.relations;
      }
    }
  }

  lemma {:induction false} RestoreItemsKeepsValid(g: Graph, user: nat, items: seq<EntityItem>)
    requires Consistent(g)
    ensures var (after, ids) := RestoreItems(g, user, items);
            && Consistent(after) && after.relations == g.relations
            && g.entities <= after.entities
            && (forall e | e in after.entities && e !in g.entities :: e.user == user)
  {
    hide Consistent;
    if items == [] {
    } else {
      var n := |items| - 1;
      RestoreItemsKeepsValid(g, user, items[..n]);
      var (g1, ids) := RestoreItems(g, user, items[..n]);
      var item := items[n];
      if Lookup(g1.entities, user, item.name) == None {
        AddKeepsValid(g1, Entity(g1.nextId, user, item.name, item.kind, item.attributes));
      }
    }
  }

  /** A restore never changes what is there: existing rows keep their place, their ids and their contents,
      other users' rows are all among them, and the constraints hold again. */
  lemma RestoreIsAdditive(g: Graph, user: nat, s: Snapshot)
    requires Consistent(g)
    ensures Restore(g, user, s).Success? ==>
              var after := Restore(g, user, s).value;
              && Consistent(after) && g.entities <= after.entities && g.relations <= after.relations
              && forall e | e in after.entities && e.user != user :: e in g.entities
  {
    hide UniqueTriples, IdsAreEntities, FlatMap, DistinctBy, RestoreItems;
    var (after, ids) := RestoreItems(g, user, s.entities);
    RestoreItemsKeepsValid(g, user, s.entities);
    NewIdsAreNew(g, user, s.entities);
    RestoredIds(g, user, s.entities);
    RestoredEndpoints(ids, after, user, s.entities, s.relations);
  }

  datatype Step =
    | UpsertStep(user: nat, name: string, kind: Option<string>, attributes: Option<string>)
    | RelationStep(relation: Relation)
    | RestoreStep(user: nat, snapshot: Snapshot)

  /** A step that fails leaves the graph as it was. */
  function Apply(g: Graph, step: Step): Graph {
    match step
    case UpsertStep(user, name, kind, attributes) => Upsert(g, user, name, kind, attributes)
    case RelationStep(r) => (match AddRelation(g, r) case Success(after) => after case Failure(_) => g)
    case RestoreStep(user, s) => (match Restore(g, user, s) case Success(after) => after case Failure(_) => g)
  }

  function Run(g: Graph, steps: seq<Step>): Graph
    decreases |steps|
  {
    if steps == [] then g else Run(Apply(g, steps[0]), steps[1..])
  }

  const EMPTY: Graph := Graph([], [], 0)

  lemma StepPreserves(g: Graph, step: Step)
    ensures Consistent(g) ==> Consistent(Apply(g, step))
  {
    hide Consistent, Upsert, AddRelation, Restore;
    if Consistent(g) {
      match step
      case UpsertStep(user, name, kind, attributes) => UpsertKeepsValid(g, user, name, kind, attributes);
      case RelationStep(r) => AddRelationKeepsValid(g, r);
      case RestoreStep(user, s) => RestoreIsAdditive(g, user, s);
    }
  }

  lemma {:induction false} RunKeepsValid(g: Graph, steps: seq<Step>)
    requires Consistent(g)
    ensures Consistent(Run(g, steps))
    decreases |steps|
  {
    hide Consistent, Apply;
    if steps == [] {
    } else {
      StepPreserves(g, steps[0]);
      RunKeepsValid(Apply(g, steps[0]), steps[1..]);
    }
  }

  /** In every graph that upserts, new relations and restores can build, ids are unique, a name belongs to one
      entity of its user, and no triple is stored twice. */
  lemma BuiltGraphsAreValid(steps: seq<Step>)
    ensures Consistent(Run(EMPTY, steps))
  {
    hide Run;
    assert Consistent(EMPTY);
    RunKeepsValid(EMPTY, steps);
  }

  // ---------- names and ids ----------

  lemma {:induction false} NameByIdFinds(own: seq<Entity>, i: nat)
    requires DistinctBy(IdOf, own) && i < |own|
    ensures NameById(own, own[i].id) == Some(own[i].name)
  {
    var n := |own| - 1;
    if i == n {
    } else {
      assert IdOf(own[i]) != IdOf(own[n]);
      NameByIdFinds(own[..n], i);
    }
  }

  lemma {:induction false} NameByIdFound(own: seq<Entity>, id: nat)
    ensures NameById(own, id).Some? <==> exists i :: 0 <= i < |own| && own[i].id == id
    ensures NameById(own, id).Some? ==> exists i :: 0 <= i < |own| && own[i].id == id
                                                    && own[i].name == NameById(own, id).value
  {
    if own == [] {
    } else {
      var n := |own| - 1;
      NameByIdFound(own[..n], id);
      if own[n].id == id {
        assert own[n].id == id && own[n].name == NameById(own, id).value;
      } else {
        if i :| 0 <= i < |own[..n]| && own[..n][i].id == id && NameById(own, id).Some?
                && own[..n][i].name == NameById(own, id).value {
          assert own[i].id == id && own[i].name == NameById(own, id).value;
        }
      }
    }
  }

  predicate Named(item: RelationItem) {
    item.subjectName.Some? && item.objectName.Some?
  }

  lemma OwnIsDistinct(g: Graph, user: nat)
    requires Consistent(g)
    ensures DistinctBy(IdOf, Own(g, user)) && DistinctBy(NameKey, Own(g, user))
    ensures forall e | e in Own(g, user) :: e.user == user && e in g.entities
  {
    DistinctByFilter(IdOf, OwnedBy(user), g.entities);
    DistinctByFilter(NameKey, OwnedBy(user), g.entities);
    forall e | e in Own(g, user)
      ensures e.user == user && e in g.entities
    {
      FilterMember(OwnedBy(user), g.entities, e);
    }
  }

  /** Among one user's entities a name belongs to one id. */
  lemma NamesSeparateIds(own: seq<Entity>, user: nat, x: nat, y: nat)
    requires DistinctBy(NameKey, own) && forall e | e in own :: e.user == user
    requires NameById(own, x).Some? && NameById(own, x) == NameById(own, y)
    ensures x == y
  {
    NameByIdFound(own, x);
    NameByIdFound(own, y);
    var i :| 0 <= i < |own| && own[i].id == x && own[i].name == NameById(own, x).value;
    var j :| 0 <= j < |own| && own[j].id == y && own[j].name == NameById(own, y).value;
    assert own[i] in own && own[j] in own;
    assert NameKey(own[i]) == NameKey(own[j]);
  }

  // ---------- restoring into an empty graph ----------

  ghost predicate NoRows(g: Graph, user: nat) {
    (forall e | e in g.entities :: e.user != user) && (forall r | r in g.relations :: r.user != user)
  }

  function NameOf(item: EntityItem): string {
    item.name
  }

  function Added(start: nat, user: nat, items: seq<EntityItem>): seq<Entity> {
    if items == [] then []
    else
      var n := |items| - 1;
      Added(start, user, items[..n]) + [Entity(start + n, user, items[n].name, items[n].kind, items[n].attributes)]
  }

  lemma {:induction false} AddedAt(start: nat, user: nat, items: seq<EntityItem>)
    ensures |Added(start, user, items)| == |items|
    ensures forall i | 0 <= i < |items| ::
              Added(start, user, items)[i] == Entity(start + i, user, items[i].name, items[i].kind, items[i].attributes)
  {
    if items == [] {
    } else {
      AddedAt(start, user, items[..|items| - 1]);
    }
  }

  ghost predicate IdsFor(ids: map<string, nat>, start: nat, items: seq<EntityItem>) {
    && (forall i | 0 <= i < |items| :: items[i].name in ids && ids[items[i].name] == start + i)
    && (forall name | name in ids :: exists i :: 0 <= i < |items| && items[i].name == name)
  }

  lemma AddedSnoc(start: nat, user: nat, front: seq<EntityItem>, item: EntityItem)
    ensures Added(start, user, front + [item])
         == Added(start, user, front) + [Entity(start + |front|, user, item.name, item.kind, item.attributes)]
  {
  }

  lemma RestoreItemsSnoc(g: Graph, user: nat, front: seq<EntityItem>, item: EntityItem)
    ensures var (g1, ids) := RestoreItems(g, user, front);
            RestoreItems(g, user, front + [item]) == RestoreItem(g1, ids, user, item)
  {
  }

  /** Every item is new, and gets the next id. */
  ghost predicate AllNew(g: Graph, user: nat, items: seq<EntityItem>) {
    var (after, ids) := RestoreItems(g, user, items);
    && after == Graph(g.entities + Added(g.nextId, user, items), g.relations, g.nextId + |items|)
    && IdsFor(ids, g.nextId, items)
  }

  lemma RestoreOneMore(g: Graph, user: nat, front: seq<EntityItem>, item: EntityItem)
    requires (forall e | e in g.entities :: e.user != user) && DistinctBy(NameOf, front + [item])
    requires AllNew(g, user, front)
    ensures AllNew(g, user, front + [item])
  {
    hide Added, IdsFor, DistinctBy, Lookup, RestoreItems, RestoreItem;
    var (g1, ids) := RestoreItems(g, user, front);
    RestoreItemsSnoc(g, user, front, item);
    NotYetThere(g, user, front, item);
    RestoreNew(g1, ids, user, item);
    AddedSnoc(g.nextId, user, front, item);
    AppendAssoc(g.entities, Added(g.nextId, user, front),
                [Entity(g1.nextId, user, item.name, item.kind, item.attributes)]);
    IdsForSnoc(ids, g.nextId, front, item);
  }

  lemma {:induction false} RestoreIntoEmpty(g: Graph, user: nat, items: seq<EntityItem>)
    requires (forall e | e in g.entities :: e.user != user) && DistinctBy(NameOf, items)
    ensures AllNew(g, user, items)
  {
    if items == [] {
      assert g.entities + [] == g.entities;
    } else {
      hide AllNew;
      var n := |items| - 1;
      assert items == items[..n] + [items[n]];
      RestoreIntoEmpty(g, user, items[..n]);
      RestoreOneMore(g, user, items[..n], items[n]);
    }
  }

  lemma RestoreNew(g: Graph, ids: map<string, nat>, user: nat, item: EntityItem)
    requires Lookup(g.entities, user, item.name) == None
    ensures RestoreItem(g, ids, user, item)
         == (Graph(g.entities + [Entity(g.nextId, user, item.name, item.kind, item.attributes)], g.relations, g.nextId
                   + 1),
             ids[item.name := g.nextId])
  {
  }

  lemma NotYetThere(g: Graph, user: nat, front: seq<EntityItem>, item: EntityItem)
    requires forall e | e in g.entities :: e.user != user
    requires DistinctBy(NameOf, front + [item])
    ensures Lookup(g.entities + Added(g.nextId, user, front), user, item.name) == None
  {
    var all := g.entities + Added(g.nextId, user, front);
    AddedAt(g.nextId, user, front);
    forall i | 0 <= i < |all|
      ensures NameKey(all[i]) != (user, item.name)
    {
      if i < |g.entities| {
        assert all[i] in g.entities;
      } else {
        var k := i - |g.entities|;
        assert (front + [item])[k] == front[k] && (front + [item])[|front|] == item;
        assert NameOf(front[k]) != NameOf(item);
      }
    }
  }

  lemma IdsForSnoc(ids: map<string, nat>, start: nat, front: seq<EntityItem>, item: EntityItem)
    requires IdsFor(ids, start, front) && DistinctBy(NameOf, front + [item])
    ensures IdsFor(ids[item.name := start + |front|], start, front + [item])
  {
    var items, after := front + [item], ids[item.name := start + |front|];
    forall i | 0 <= i < |items|
      ensures items[i].name in after && after[items[i].name] == start + i
    {
      if i < |front| {
        assert items[i] == front[i] && NameOf(items[i]) != NameOf(items[|front|]);
      }
    }
    forall name | name in after
      ensures exists i :: 0 <= i < |items| && items[i].name == name
    {
      if name in ids {
        var i :| 0 <= i < |front| && front[i].name == name;
        assert items[i].name == name;
      } else {
        assert items[|front|].name == name;
      }
    }
  }

  lemma AddedIdsDistinct(start: nat, user: nat, items: seq<EntityItem>)
    ensures DistinctBy(IdOf, Added(start, user, items))
  {
    AddedAt(start, user, items);
  }

  /** The ids handed out lead back to the names they were handed out for. */
  lemma IdLeadsToName(ids: map<string, nat>, start: nat, user: nat, items: seq<EntityItem>, name: string)
    requires IdsFor(ids, start, items) && name in ids
    ensures NameById(Added(start, user, items), ids[name]) == Some(name)
  {
    hide NameById, Added, DistinctBy;
    var i :| 0 <= i < |items| && items[i].name == name;
    assert ids[name] == start + i;
    AddedAt(start, user, items);
    AddedIdsDistinct(start, user, items);
    NameByIdFinds(Added(start, user, items), i);
  }

  lemma {:induction false} ResolvedRelationsSnapshotBack(ids: map<string, nat>, start: nat, user: nat,
                                                          items: seq<EntityItem>, rels: seq<RelationItem>)
    requires IdsFor(ids, start, items)
    requires forall i | 0 <= i < |rels| && Named(rels[i]) :: rels[i].subjectName.value in ids
                                                             && rels[i].objectName.value in ids
    ensures Map(ToRelationItem(Added(start, user, items)), FlatMap(Resolve(ids, user), rels)) == Filter(Named, rels)
    ensures forall r | r in FlatMap(Resolve(ids, user), rels) :: r.user == user
  {
    hide Added, IdsFor, NameById;
    if rels == [] {
    } else {
      var rest := rels[1..];
      ResolvedRelationsSnapshotBack(ids, start, user, items, rest);
      var tail := FlatMap(Resolve(ids, user), rest);
      if Named(rels[0]) {
        var row := Resolve(ids, user)(rels[0])[0];
        IdLeadsToName(ids, start, user, items, rels[0].subjectName.value);
        IdLeadsToName(ids, start, user, items, rels[0].objectName.value);
        assert FlatMap(Resolve(ids, user), rels) == [row] + tail;
        assert ([row] + tail)[1..] == tail;
        assert ToRelationItem(Added(start, user, items))(row) == rels[0];
      } else {
        assert FlatMap(Resolve(ids, user), rels) == [] + tail == tail;
      }
    }
  }

  /** Names of a snapshot's relations are names of its entities. */
  lemma SnapshotNamesKnown(g: Graph, user: nat, ids: map<string, nat>, start: nat)
    requires IdsFor(ids, start, TakeSnapshot(g, user).entities)
    ensures forall i | 0 <= i < |TakeSnapshot(g, user).relations| && Named(TakeSnapshot(g, user).relations[i]) ::
              var item := TakeSnapshot(g, user).relations[i]; item.subjectName.value in ids
                                                              && item.objectName.value in ids
  {
    hide NameById, IdsFor;
    var s := TakeSnapshot(g, user);
    var rows := Filter(RelatedBy(user), g.relations);
    forall i | 0 <= i < |s.relations| && Named(s.relations[i])
      ensures s.relations[i].subjectName.value in ids && s.relations[i].objectName.value in ids
    {
      NameKnown(g, user, ids, start, rows[i].subjectId);
      NameKnown(g, user, ids, start, rows[i].objectId);
    }
  }

  lemma NameKnown(g: Graph, user: nat, ids: map<string, nat>, start: nat, id: nat)
    requires IdsFor(ids, start, TakeSnapshot(g, user).entities) && NameById(Own(g, user), id).Some?
    ensures NameById(Own(g, user), id).value in ids
  {
    hide NameById;
    var own, items := Own(g, user), TakeSnapshot(g, user).entities;
    NameByIdFound(own, id);
    var a :| 0 <= a < |own| && own[a].name == NameById(own, id).value;
    assert items[a].name == own[a].name;
  }

  function ItemTriple(item: RelationItem): (Option<string>, string, Option<string>) {
    (item.subjectName, item.predicateName, item.objectName)
  }

  /** Distinct triples of ids give distinct triples of names. */
  lemma NamedTriplesDistinct(g: Graph, user: nat)
    requires Consistent(g)
    ensures DistinctBy(ItemTriple, Filter(Named, TakeSnapshot(g, user).relations))
  {
    hide NameById;
    var own, rows := Own(g, user), Filter(RelatedBy(user), g.relations);
    var toItem := ToRelationItem(own);
    OwnIsDistinct(g, user);
    DistinctByFilter(Triple, RelatedBy(user), g.relations);
    var named := (r: Relation) => Named(toItem(r));
    FilterMap(Named, named, toItem, rows);
    DistinctByFilter(Triple, named, rows);
    var kept := Filter(named, rows);
    forall i, j | 0 <= i < j < |kept|
      ensures ItemTriple(toItem(kept[i])) != ItemTriple(toItem(kept[j]))
    {
      FilterMember(named, rows, kept[i]);
      FilterMember(named, rows, kept[j]);
      FilterMember(RelatedBy(user), g.relations, kept[i]);
      FilterMember(RelatedBy(user), g.relations, kept[j]);
      assert Triple(kept[i]) != Triple(kept[j]);
      if NameById(own, kept[i].subjectId) == NameById(own, kept[j].subjectId) {
        NamesSeparateIds(own, user, kept[i].subjectId, kept[j].subjectId);
      }
      if NameById(own, kept[i].objectId) == NameById(own, kept[j].objectId) {
        NamesSeparateIds(own, user, kept[i].objectId, kept[j].objectId);
      }
    }
  }

  lemma DistinctItemsDistinctRows(own: seq<Entity>, rows: seq<Relation>)
    requires DistinctBy(ItemTriple, Map(ToRelationItem(own), rows))
    ensures UniqueTriples(rows)
  {
  }

  lemma AppendUserTriples(relations: seq<Relation>, added: seq<Relation>, user: nat)
    requires UniqueTriples(relations) && UniqueTriples(added)
    requires (forall r | r in relations :: r.user != user) && (forall r | r in added :: r.user == user)
    ensures UniqueTriples(relations + added)
  {
  }

  /** Exporting one user's graph and restoring it for a user without rows, in the same or another store,
      always succeeds; exporting again gives the same entities, and the same relations except those with an
      endpoint outside the exported user's own entities. The export is reproduced exactly when there are none. */
  lemma SnapshotRestoreSnapshot(g: Graph, user: nat, target: Graph, newUser: nat)
    requires Consistent(g) && Consistent(target) && NoRows(target, newUser)
    ensures Restore(target, newUser, TakeSnapshot(g, user)).Success?
    ensures
      var s := TakeSnapshot(g, user);
      var again := TakeSnapshot(Restore(target, newUser, s).value, newUser);
      && again.entities == s.entities
      && again.relations == Filter(Named, s.relations)
      && (again == s <==> forall item | item in s.relations :: Named(item))
  {
    hide Consistent, TakeSnapshot, UniqueTriples, IdsFor, Added, NoRows;
    var s := TakeSnapshot(g, user);
    var (g1, ids) := RestoreItems(target, newUser, s.entities);
    var added := Added(target.nextId, newUser, s.entities);
    var rows := FlatMap(Resolve(ids, newUser), s.relations);
    SnapshotNamesDistinct(g, user);
    NoRowsParts(target, newUser);
    RestoreIntoEmpty(target, newUser, s.entities);
    SnapshotNamesKnown(g, user, ids, target.nextId);
    ResolvedRelationsSnapshotBack(ids, target.nextId, newUser, s.entities, s.relations);
    NamedTriplesDistinct(g, user);
    DistinctItemsDistinctRows(added, rows);
    ValidTriples(target);
    AppendUserTriples(target.relations, rows, newUser);
    SnapshotOfRestored(target, newUser, s.entities, rows);
    NamedAllOrNot(s.relations);
  }

  lemma SnapshotNamesDistinct(g: Graph, user: nat)
    requires Consistent(g)
    ensures DistinctBy(NameOf, TakeSnapshot(g, user).entities)
  {
    var own, items := Own(g, user), TakeSnapshot(g, user).entities;
    OwnIsDistinct(g, user);
    forall i, j | 0 <= i < j < |items|
      ensures NameOf(items[i]) != NameOf(items[j])
    {
      assert own[i] in own && own[j] in own && NameKey(own[i]) != NameKey(own[j]);
    }
  }

  lemma NoRowsParts(g: Graph, user: nat)
    requires NoRows(g, user)
    ensures (forall e | e in g.entities :: e.user != user) && (forall r | r in g.relations :: r.user != user)
  {
  }

  lemma ValidTriples(g: Graph)
    requires Consistent(g)
    ensures UniqueTriples(g.relations)
  {
  }

  lemma SnapshotOfRestored(target: Graph, user: nat, items: seq<EntityItem>, rows: seq<Relation>)
    requires (forall e | e in target.entities :: e.user != user) && (forall r | r in target.relations :: r.user != user)
    requires forall r | r in rows :: r.user == user
    ensures
      var added := Added(target.nextId, user, items);
      TakeSnapshot(Graph(target.entities + added, target.relations + rows, target.nextId + |items|), user)
        == Snapshot(items, Map(ToRelationItem(added), rows))
  {
    hide NameById;
    var added := Added(target.nextId, user, items);
    AddedAt(target.nextId, user, items);
    FilterAppend(OwnedBy(user), target.entities, added);
    FilterNone(OwnedBy(user), target.entities);
    FilterAll(OwnedBy(user), added);
    FilterAppend(RelatedBy(user), target.relations, rows);
    FilterNone(RelatedBy(user), target.relations);
    FilterAll(RelatedBy(user), rows);
    assert [] + added == added && [] + rows == rows;
    assert Map(ToItem, added) == items;
  }

  lemma NamedAllOrNot(rels: seq<RelationItem>)
    ensures Filter(Named, rels) == rels <==> forall item | item in rels :: Named(item)
  {
  }

  // ---------- restoring where the entities already are ----------

  ghost predicate FoundIds(ids: map<string, nat>, own: seq<Entity>) {
    forall i | 0 <= i < |own| :: own[i].name in ids && ids[own[i].name] == own[i].id
  }

  /** What restoring the exported entities over the graph they come from gives: nothing new, and their own ids. */
  ghost predicate RestoresInPlace(g: Graph, user: nat, own: seq<Entity>) {
    var (after, ids) := RestoreItems(g, user, Map(ToItem, own));
    after == g && FoundIds(ids, own)
  }

  lemma {:induction false} RestoreFindsAll(g: Graph, user: nat, own: seq<Entity>)
    requires Consistent(g) && DistinctBy(NameKey, own) && forall e | e in own :: e in g.entities && e.user == user
    ensures RestoresInPlace(g, user, own)
  {
    if own == [] {
    } else {
      hide Consistent, DistinctBy, RestoresInPlace;
      var n := |own| - 1;
      var front, e := own[..n], own[n];
      assert own == front + [e];
      DistinctBySplit(NameKey, own, n);
      RestoreFindsAll(g, user, front);
      RestoreFindsOneMore(g, user, front, e);
    }
  }

  lemma RestoreFindsOneMore(g: Graph, user: nat, front: seq<Entity>, e: Entity)
    requires Consistent(g) && RestoresInPlace(g, user, front) && e in g.entities
    requires DistinctBy(NameKey, front + [e]) && forall x | x in front + [e] :: x.user == user
    ensures RestoresInPlace(g, user, front + [e])
  {
    hide Consistent, RestoreItems, Lookup, DistinctBy, FoundIds, Map;
    assert e in front + [e];
    MapAppend(ToItem, front, [e]);
    assert Map(ToItem, [e]) == [ToItem(e)];
    RestoreItemsSnoc(g, user, Map(ToItem, front), ToItem(e));
    LookupFinds(g, user, e);
    FoundIdsSnoc(RestoreItems(g, user, Map(ToItem, front)).1, front, e, user);
  }

  lemma FoundIdsSnoc(ids: map<string, nat>, front: seq<Entity>, e: Entity, user: nat)
    requires FoundIds(ids, front) && DistinctBy(NameKey, front + [e]) && forall x | x in front + [e] :: x.user == user
    ensures FoundIds(ids[e.name := e.id], front + [e])
  {
    var own := front + [e];
    forall i | 0 <= i < |front|
      ensures own[i].name != e.name
    {
      assert own[i] in own && own[|front|] in own && NameKey(own[i]) != NameKey(own[|front|]);
    }
  }

  lemma LookupFinds(g: Graph, user: nat, e: Entity)
    requires Consistent(g) && e in g.entities && e.user == user
    ensures Lookup(g.entities, user, e.name).Some? && g.entities[Lookup(g.entities, user, e.name).value] == e
  {
  }

  /** A named relation resolves to the very triple it was exported from. */
  lemma ResolvesToItself(g: Graph, user: nat, ids: map<string, nat>, r: Relation)
    requires Consistent(g) && FoundIds(ids, Own(g, user)) && r.user == user
    requires Named(ToRelationItem(Own(g, user))(r))
    ensures var rows := Resolve(ids, user)(ToRelationItem(Own(g, user))(r)); |rows| == 1 && Triple(rows[0]) == Triple(r)
  {
    var own := Own(g, user);
    NameByIdFound(own, r.subjectId);
    NameByIdFound(own, r.objectId);
    var i :| 0 <= i < |own| && own[i].id == r.subjectId && own[i].name == NameById(own, r.subjectId).value;
    var j :| 0 <= j < |own| && own[j].id == r.objectId && own[j].name == NameById(own, r.objectId).value;
    assert ids[own[i].name] == r.subjectId && ids[own[j].name] == r.objectId;
  }

  /** Restoring a snapshot over the graph it was taken from fails exactly when it holds a relation between the
      user's own entities: that triple is there already. Otherwise nothing changes. */
  lemma RestoreInPlaceIff(g: Graph, user: nat)
    requires Consistent(g)
    ensures
      var s := TakeSnapshot(g, user);
      && (Restore(g, user, s) == Failure(UniqueViolation) <==> exists item :: item in s.relations && Named(item))
      && (Restore(g, user, s).Success? ==> Restore(g, user, s).value == g)
  {
    hide UniqueTriples, FoundIds;
    var own, s := Own(g, user), TakeSnapshot(g, user);
    var rows := Filter(RelatedBy(user), g.relations);
    OwnIsDistinct(g, user);
    RestoreFindsAll(g, user, own);
    var ids := RestoreItems(g, user, s.entities).1;
    var added := FlatMap(Resolve(ids, user), s.relations);
    if item :| item in s.relations && Named(item) {
      var k :| 0 <= k < |s.relations| && s.relations[k] == item;
      FilterMember(RelatedBy(user), g.relations, rows[k]);
      ResolvesToItself(g, user, ids, rows[k]);
      var row := Resolve(ids, user)(item)[0];
      FlatMapMember(Resolve(ids, user), s.relations, row);
      RepeatedTriple(g.relations, added, rows[k], row);
    } else {
      NothingResolved(ids, user, s.relations);
      ValidTriples(g);
      assert g.relations + [] == g.relations;
    }
  }

  /** Two entities and a relation between them. */
  function Related(): seq<Step> {
    [UpsertStep(0, "a", None, None), UpsertStep(0, "b", None, None), RelationStep(Relation(0, 0, "knows", 1, 1.0))]
  }

  /** Such a graph cannot be restored over itself. */
  lemma RestoreInPlaceCanFail()
    ensures var g := Run(EMPTY, Related()); Restore(g, 0, TakeSnapshot(g, 0)) == Failure(UniqueViolation)
  {
    hide Run, Restore, NameById;
    var g := Run(EMPTY, Related());
    var a, b, r := Entity(0, 0, "a", None, None), Entity(1, 0, "b", None, None), Relation(0, 0, "knows", 1, 1.0);
    BuiltGraphsAreValid(Related());
    RelatedGraph();
    assert [r][1..] == [] && [a, b][1..] == [b] && [b][1..] == [];
    assert Own(g, 0) == [a, b] && Filter(RelatedBy(0), g.relations) == [r];
    var item := TakeSnapshot(g, 0).relations[0];
    assert [a, b][0].id == 0 && [a, b][1].id == 1;
    NameByIdFound([a, b], 0);
    NameByIdFound([a, b], 1);
    assert item in TakeSnapshot(g, 0).relations && Named(item);
    RestoreInPlaceIff(g, 0);
  }

  lemma RelatedGraph()
    ensures Run(EMPTY, Related())
         == Graph([Entity(0, 0, "a", None, None), Entity(1, 0, "b", None, None)], [Relation(0, 0, "knows", 1, 1.0)], 2)
  {
    hide UniqueTriples;
    var a, b, r := Entity(0, 0, "a", None, None), Entity(1, 0, "b", None, None), Relation(0, 0, "knows", 1, 1.0);
    var steps := Related();
    assert "a"[0] != "b"[0];
    assert Apply(EMPTY, steps[0]) == Graph([a], [], 1);
    assert [a][..0] == [];
    assert Apply(Graph([a], [], 1), steps[1]) == Graph([a, b], [], 2);
    assert [a, b][0].id == 0 && [a, b][1].id == 1;
    OneTripleUnique(r);
    assert [] + [r] == [r];
    assert Apply(Graph([a, b], [], 2), steps[2]) == Graph([a, b], [r], 2);
    RunOfThree(steps[0], steps[1], steps[2]);
  }

  lemma OneTripleUnique(r: Relation)
    ensures UniqueTriples([r])
  {
  }

  lemma RunOfThree(x: Step, y: Step, z: Step)
    ensures Run(EMPTY, [x, y, z]) == Apply(Apply(Apply(EMPTY, x), y), z)
  {
    hide Apply;
    assert [x, y, z][1..] == [y, z] && [y, z][1..] == [z] && [z][1..] == [];
    assert Run(Apply(EMPTY, x), [y, z]) == Run(Apply(Apply(EMPTY, x), y), [z]);
    assert Run(Apply(Apply(EMPTY, x), y), [z]) == Run(Apply(Apply(Apply(EMPTY, x), y), z), []);
  }

  lemma RepeatedTriple(relations: seq<Relation>, added: seq<Relation>, r: Relation, row: Relation)
    requires r in relations && row in added && Triple(r) == Triple(row)
    ensures !UniqueTriples(relations + added)
  {
    var i :| 0 <= i < |relations| && relations[i] == r;
    var j :| 0 <= j < |added| && added[j] == row;
    assert (relations + added)[i] == r && (relations + added)[|relations| + j] == row;
  }

  lemma {:induction false} NothingResolved(ids: map<string, nat>, user: nat, rels: seq<RelationItem>)
    requires forall item | item in rels :: !Named(item)
    ensures FlatMap(Resolve(ids, user), rels) == []
  {
    if rels == [] {
    } else {
      assert rels[0] in rels && forall item | item in rels[1..] :: item in rels;
      NothingResolved(ids, user, rels[1..]);
    }
  }

  // ---------- restoring anything anywhere ----------

  /** Both names of the relation are names of restored entities. */
  predicate Resolves(ids: map<string, nat>, item: RelationItem) {
    && Named(item) && item.subjectName.value in ids && item.objectName.value in ids
  }

  function ResolvedTriple(ids: map<string, nat>, user: nat, item: RelationItem): (nat, nat, string, nat)
    requires Resolves(ids, item)
  {
    (user, ids[item.subjectName.value], item.predicateName, ids[item.objectName.value])
  }

  /** An id handed out for a name is that of the user's entity with that name, and every item's name has one. */
  ghost predicate IdsAreEntities(ids: map<string, nat>, entities: seq<Entity>, user: nat, items: seq<EntityItem>) {
    && (forall name | name in ids :: exists e :: e in entities && NameKey(e) == (user, name) && e.id == ids[name])
    && (forall name :: name in ids <==> exists item :: item in items && item.name == name)
  }

  lemma {:induction false} RestoredIds(g: Graph, user: nat, items: seq<EntityItem>)
    ensures var (after, ids) := RestoreItems(g, user, items);
            g.entities <= after.entities && IdsAreEntities(ids, after.entities, user, items)
  {
    if items == [] {
    } else {
      var n := |items| - 1;
      var front, item := items[..n], items[n];
      assert items == front + [item];
      RestoredIds(g, user, front);
      RestoreItemsSnoc(g, user, front, item);
      var (g1, ids) := RestoreItems(g, user, front);
      hide RestoreItems;
      OneMoreId(g1, ids, user, front, item);
    }
  }

  lemma OneMoreId(g: Graph, ids: map<string, nat>, user: nat, front: seq<EntityItem>, item: EntityItem)
    requires IdsAreEntities(ids, g.entities, user, front)
    ensures var (after, more) := RestoreItem(g, ids, user, item);
            g.entities <= after.entities && IdsAreEntities(more, after.entities, user, front + [item])
  {
    var (after, more) := RestoreItem(g, ids, user, item);
    forall name | name in more
      ensures exists e :: e in after.entities && NameKey(e) == (user, name) && e.id == more[name]
    {
      if name == item.name {
        var found := Lookup(g.entities, user, item.name);
        var e := if found.Some? then g.entities[found.value] else after.entities[|g.entities|];
        assert e in after.entities && NameKey(e) == (user, name) && e.id == more[name];
      } else {
        var e :| e in g.entities && NameKey(e) == (user, name) && e.id == ids[name];
        assert e in after.entities;
      }
    }
    forall name
      ensures name in more <==> exists x :: x in front + [item] && x.name == name
    {
      assert item in front + [item];
      if name in ids {
        var x :| x in front && x.name == name;
        assert x in front + [item];
      }
    }
  }

  /** Different names have different ids. */
  lemma IdsInjective(ids: map<string, nat>, entities: seq<Entity>, user: nat, items: seq<EntityItem>, x: string,
                     y: string)
    requires IdsAreEntities(ids, entities, user, items) && DistinctBy(IdOf, entities) && x in ids && y in ids
        && ids[x] == ids[y]
    ensures x == y
  {
    var e :| e in entities && NameKey(e) == (user, x) && e.id == ids[x];
    var f :| f in entities && NameKey(f) == (user, y) && f.id == ids[y];
    var i :| 0 <= i < |entities| && entities[i] == e;
    var j :| 0 <= j < |entities| && entities[j] == f;
    DistinctSameIndex(IdOf, entities, i, j);
  }

  /** Two of the relations resolve to one triple. */
  ghost predicate Repeats(ids: map<string, nat>, rels: seq<RelationItem>) {
    exists i, j :: 0 <= i < j < |rels| && Resolves(ids, rels[i]) && Resolves(ids, rels[j])
        && ItemTriple(rels[i]) == ItemTriple(rels[j])
  }

  /** One of the relations resolves to a triple that is stored already. */
  ghost predicate Collides(ids: map<string, nat>, user: nat, rels: seq<RelationItem>, relations: seq<Relation>) {
    exists i, r :: 0 <= i < |rels| && r in relations && Resolves(ids, rels[i])
        && ResolvedTriple(ids, user, rels[i]) == Triple(r)
  }

  ghost predicate Injective(ids: map<string, nat>) {
    forall x, y | x in ids && y in ids && ids[x] == ids[y] :: x == y
  }

  lemma AddedTriple(ids: map<string, nat>, user: nat, rels: seq<RelationItem>, triple: (nat, nat, string, nat))
    ensures (exists row :: row in FlatMap(Resolve(ids, user), rels) && Triple(row) == triple)
            <==> exists i :: 0 <= i < |rels| && Resolves(ids, rels[i]) && ResolvedTriple(ids, user, rels[i]) == triple
  {
    hide FlatMap;
    var added := FlatMap(Resolve(ids, user), rels);
    if row :| row in added && Triple(row) == triple {
      FlatMapMember(Resolve(ids, user), rels, row);
      var item :| item in rels && row in Resolve(ids, user)(item);
      var i :| 0 <= i < |rels| && rels[i] == item;
      assert Resolves(ids, rels[i]) && ResolvedTriple(ids, user, rels[i]) == triple;
    }
    if i :| 0 <= i < |rels| && Resolves(ids, rels[i]) && ResolvedTriple(ids, user, rels[i]) == triple {
      var row := Resolve(ids, user)(rels[i])[0];
      assert rels[i] in rels && row in Resolve(ids, user)(rels[i]);
      FlatMapMember(Resolve(ids, user), rels, row);
      assert Triple(row) == triple;
    }
  }

  lemma {:induction false} AddedUniqueIff(ids: map<string, nat>, user: nat, rels: seq<RelationItem>)
    requires Injective(ids)
    ensures UniqueTriples(FlatMap(Resolve(ids, user), rels)) <==> !Repeats(ids, rels)
  {
    if rels == [] {
    } else {
      hide UniqueTriples, Injective;
      var rest := rels[1..];
      var tail := FlatMap(Resolve(ids, user), rest);
      AddedUniqueIff(ids, user, rest);
      FlatMapCons(Resolve(ids, user), rels[0], rest);
      assert rels == [rels[0]] + rest;
      hide FlatMap, Repeats;
      if Resolves(ids, rels[0]) {
        UniqueCons(Resolve(ids, user)(rels[0])[0], tail);
        AddedTriple(ids, user, rest, ResolvedTriple(ids, user, rels[0]));
        RepeatsCons(ids, user, rels[0], rest);
      } else {
        assert [] + tail == tail;
        RepeatsSkip(ids, rels[0], rest);
      }
    }
  }

  lemma UniqueCons(row: Relation, tail: seq<Relation>)
    ensures UniqueTriples([row] + tail) <==> UniqueTriples(tail) && !(exists r :: r in tail && Triple(r) == Triple(row))
  {
    var all := [row] + tail;
    if UniqueTriples(all) {
      forall r | r in tail
        ensures Triple(r) != Triple(row)
      {
        var k :| 0 <= k < |tail| && tail[k] == r;
        assert Triple(all[0]) != Triple(all[k + 1]);
      }
      forall i, j | 0 <= i < j < |tail|
        ensures Triple(tail[i]) != Triple(tail[j])
      {
        assert Triple(all[i + 1]) != Triple(all[j + 1]);
      }
    }
    if UniqueTriples(tail) && !(exists r :: r in tail && Triple(r) == Triple(row)) {
      forall i, j | 0 <= i < j < |all|
        ensures Triple(all[i]) != Triple(all[j])
      {
        assert all[j] == tail[j - 1] && tail[j - 1] in tail;
        assert i > 0 ==> all[i] == tail[i - 1];
      }
    }
  }

  lemma RepeatsCons(ids: map<string, nat>, user: nat, item: RelationItem, rest: seq<RelationItem>)
    requires Resolves(ids, item) && Injective(ids)
    ensures Repeats(ids, [item] + rest) <==>
              Repeats(ids, rest)
              || exists i :: 0 <= i < |rest| && Resolves(ids, rest[i])
                  && ResolvedTriple(ids, user, rest[i]) == ResolvedTriple(ids, user, item)
  {
    var all := [item] + rest;
    if i, j :| 0 <= i < j < |all| && Resolves(ids, all[i]) && Resolves(ids, all[j])
               && ItemTriple(all[i]) == ItemTriple(all[j]) {
      assert all[j] == rest[j - 1];
      if i > 0 {
        assert all[i] == rest[i - 1];
        assert Repeats(ids, rest);
      } else {
        assert ResolvedTriple(ids, user, rest[j - 1]) == ResolvedTriple(ids, user, item);
      }
    }
    if i, j :| 0 <= i < j < |rest| && Resolves(ids, rest[i]) && Resolves(ids, rest[j])
               && ItemTriple(rest[i]) == ItemTriple(rest[j]) {
      assert all[i + 1] == rest[i] && all[j + 1] == rest[j];
    }
    if i :| 0 <= i < |rest| && Resolves(ids, rest[i])
            && ResolvedTriple(ids, user, rest[i]) == ResolvedTriple(ids, user, item) {
      assert ItemTriple(rest[i]) == ItemTriple(item);
      assert all[0] == item && all[i + 1] == rest[i];
    }
  }

  lemma RepeatsSkip(ids: map<string, nat>, item: RelationItem, rest: seq<RelationItem>)
    requires !Resolves(ids, item)
    ensures Repeats(ids, [item] + rest) <==> Repeats(ids, rest)
  {
    var all := [item] + rest;
    if i, j :| 0 <= i < j < |all| && Resolves(ids, all[i]) && Resolves(ids, all[j])
               && ItemTriple(all[i]) == ItemTriple(all[j]) {
      assert all[i] == rest[i - 1] && all[j] == rest[j - 1];
    }
    if i, j :| 0 <= i < j < |rest| && Resolves(ids, rest[i]) && Resolves(ids, rest[j])
               && ItemTriple(rest[i]) == ItemTriple(rest[j]) {
      assert all[i + 1] == rest[i] && all[j + 1] == rest[j];
    }
  }

  lemma UniqueAppendIff(a: seq<Relation>, b: seq<Relation>)
    requires UniqueTriples(a)
    ensures UniqueTriples(a + b) <==> UniqueTriples(b)
                                      && !(exists r, row :: r in a && row in b && Triple(r) == Triple(row))
  {
    if r, row :| r in a && row in b && Triple(r) == Triple(row) {
      RepeatedTriple(a, b, r, row);
    } else {
      forall i, j | 0 <= i < |a| && 0 <= j < |b|
        ensures Triple(a[i]) != Triple(b[j])
      {
        assert a[i] in a && b[j] in b;
      }
      assert forall j | 0 <= j < |b| :: (a + b)[|a| + j] == b[j];
    }
  }

  /** The relation's names are both names of entities of the snapshot. */
  predicate Resolvable(s: Snapshot, item: RelationItem) {
    && Named(item)
    && (exists i :: 0 <= i < |s.entities| && s.entities[i].name == item.subjectName.value)
    && (exists i :: 0 <= i < |s.entities| && s.entities[i].name == item.objectName.value)
  }

  /** The relation lies between the user's stored entities of these names. */
  ghost predicate StoredBetween(g: Graph, user: nat, item: RelationItem, r: Relation, e: Entity, f: Entity) {
    && Named(item) && r in g.relations && e in g.entities && f in g.entities
    && NameKey(e) == (user, item.subjectName.value) && NameKey(f) == (user, item.objectName.value)
    && Triple(r) == (user, e.id, item.predicateName, f.id)
  }

  ghost predicate StoredAlready(g: Graph, user: nat, s: Snapshot) {
    exists i, r, e, f :: 0 <= i < |s.relations| && Resolvable(s, s.relations[i])
                         && StoredBetween(g, user, s.relations[i], r, e, f)
  }

  predicate GivenTwice(s: Snapshot) {
    exists i, j :: 0 <= i < j < |s.relations| && Resolvable(s, s.relations[i]) && Resolvable(s, s.relations[j])
                   && ItemTriple(s.relations[i]) == ItemTriple(s.relations[j])
  }

  /** Exactly when a restore fails, for any snapshot and any graph: the snapshot holds a relation between two of its
      entities that is stored already between the user's entities of the same names, or holds one twice. */
  lemma RestoreFailsIff(g: Graph, user: nat, s: Snapshot)
    requires Consistent(g)
    ensures Restore(g, user, s) == Failure(UniqueViolation) <==> StoredAlready(g, user, s) || GivenTwice(s)
  {
    hide UniqueTriples, IdsAreEntities, RestoreItems, Collides, Repeats, StoredAlready, GivenTwice, Consistent;
    var (after, ids) := RestoreItems(g, user, s.entities);
    var added := FlatMap(Resolve(ids, user), s.relations);
    RestoredIds(g, user, s.entities);
    RestoreItemsKeepsValid(g, user, s.entities);
    ValidTriples(g);
    AllInjective(ids, after, user, s.entities);
    AddedUniqueIff(ids, user, s.relations);
    UniqueAppendIff(g.relations, added);
    CollidesIff(ids, user, s.relations, g.relations);
    RepeatsIsGivenTwice(ids, after, user, s);
    if Collides(ids, user, s.relations, g.relations) {
      CollisionIsStored(g, after, ids, user, s);
    }
    if StoredAlready(g, user, s) {
      StoredCollides(g, after, ids, user, s);
    }
  }

  lemma ResolvesIsResolvable(ids: map<string, nat>, after: Graph, user: nat, s: Snapshot, item: RelationItem)
    requires IdsAreEntities(ids, after.entities, user, s.entities)
    ensures Resolves(ids, item) <==> Resolvable(s, item)
  {
    if Named(item) {
      NameListed(ids, after, user, s.entities, item.subjectName.value);
      NameListed(ids, after, user, s.entities, item.objectName.value);
    }
  }

  lemma NameListed(ids: map<string, nat>, after: Graph, user: nat, items: seq<EntityItem>, name: string)
    requires IdsAreEntities(ids, after.entities, user, items)
    ensures name in ids <==> exists i :: 0 <= i < |items| && items[i].name == name
  {
    if name in ids {
      var item :| item in items && item.name == name;
      var i :| 0 <= i < |items| && items[i] == item;
      assert items[i].name == name;
    }
    if i :| 0 <= i < |items| && items[i].name == name {
      assert items[i] in items;
    }
  }

  lemma RepeatsIsGivenTwice(ids: map<string, nat>, after: Graph, user: nat, s: Snapshot)
    requires IdsAreEntities(ids, after.entities, user, s.entities)
    ensures Repeats(ids, s.relations) <==> GivenTwice(s)
  {
    hide IdsAreEntities, Resolves, Resolvable;
    forall i | 0 <= i < |s.relations|
      ensures Resolves(ids, s.relations[i]) <==> Resolvable(s, s.relations[i])
    {
      ResolvesIsResolvable(ids, after, user, s, s.relations[i]);
    }
  }

  /** An id that was given out before the restore belongs to an entity that was there before. */
  lemma OldIdOldEntity(g: Graph, after: Graph, ids: map<string, nat>, user: nat, items: seq<EntityItem>, name: string)
    returns (e: Entity)
    requires IdsAreEntities(ids, after.entities, user, items) && name in ids && ids[name] < g.nextId
    requires forall e | e in after.entities :: e in g.entities || e.id >= g.nextId
    ensures e in g.entities && NameKey(e) == (user, name) && e.id == ids[name]
  {
    e :| e in after.entities && NameKey(e) == (user, name) && e.id == ids[name];
  }

  lemma CollisionIsStored(g: Graph, after: Graph, ids: map<string, nat>, user: nat, s: Snapshot)
    requires Consistent(g) && (after, ids) == RestoreItems(g, user, s.entities)
    requires IdsAreEntities(ids, after.entities, user, s.entities) && Collides(ids, user, s.relations, g.relations)
    ensures StoredAlready(g, user, s)
  {
    hide UniqueTriples, IdsAreEntities, RestoreItems;
    var i, r :| 0 <= i < |s.relations| && r in g.relations && Resolves(ids, s.relations[i])
                && ResolvedTriple(ids, user, s.relations[i]) == Triple(r);
    var item := s.relations[i];
    NewIdsAreNew(g, user, s.entities);
    var e := OldIdOldEntity(g, after, ids, user, s.entities, item.subjectName.value);
    var f := OldIdOldEntity(g, after, ids, user, s.entities, item.objectName.value);
    ResolvesIsResolvable(ids, after, user, s, item);
    assert StoredBetween(g, user, item, r, e, f);
  }

  lemma StoredCollides(g: Graph, after: Graph, ids: map<string, nat>, user: nat, s: Snapshot)
    requires Consistent(after) && g.entities <= after.entities
    requires IdsAreEntities(ids, after.entities, user, s.entities) && StoredAlready(g, user, s)
    ensures Collides(ids, user, s.relations, g.relations)
  {
    hide UniqueTriples, IdsAreEntities, Resolvable, DistinctBy;
    var i, r, e, f :| 0 <= i < |s.relations| && Resolvable(s, s.relations[i])
        && StoredBetween(g, user, s.relations[i], r, e, f);
    var item := s.relations[i];
    ResolvesIsResolvable(ids, after, user, s, item);
    NameHasId(ids, after, user, s.entities, item.subjectName.value, e);
    NameHasId(ids, after, user, s.entities, item.objectName.value, f);
    assert ResolvedTriple(ids, user, item) == Triple(r);
  }

  lemma NameHasId(ids: map<string, nat>, after: Graph, user: nat, items: seq<EntityItem>, name: string, e: Entity)
    requires IdsAreEntities(ids, after.entities, user, items) && DistinctBy(NameKey, after.entities)
    requires name in ids && e in after.entities && NameKey(e) == (user, name)
    ensures ids[name] == e.id
  {
    var x :| x in after.entities && NameKey(x) == (user, name) && x.id == ids[name];
    var i :| 0 <= i < |after.entities| && after.entities[i] == x;
    var j :| 0 <= j < |after.entities| && after.entities[j] == e;
    DistinctSameIndex(NameKey, after.entities, i, j);
  }

  lemma {:induction false} NewIdsAreNew(g: Graph, user: nat, items: seq<EntityItem>)
    ensures
      var after := RestoreItems(g, user, items).0;
      g.nextId <= after.nextId && forall e | e in after.entities :: e in g.entities || e.id >= g.nextId
  {
    if items == [] {
    } else {
      NewIdsAreNew(g, user, items[..|items| - 1]);
    }
  }

  lemma RestoredEndpoints(ids: map<string, nat>, after: Graph, user: nat, items: seq<EntityItem>,
                          rels: seq<RelationItem>)
    requires IdsAreEntities(ids, after.entities, user, items) && Consistent(after)
    ensures forall r | r in FlatMap(Resolve(ids, user), rels) :: r.subjectId < after.nextId && r.objectId < after.nextId
  {
    hide FlatMap, DistinctBy, UniqueTriples;
    forall name | name in ids
      ensures ids[name] < after.nextId
    {
      var e :| e in after.entities && NameKey(e) == (user, name) && e.id == ids[name];
    }
    forall r | r in FlatMap(Resolve(ids, user), rels)
      ensures r.subjectId < after.nextId && r.objectId < after.nextId
    {
      FlatMapMember(Resolve(ids, user), rels, r);
      var item :| item in rels && r in Resolve(ids, user)(item);
    }
  }

  lemma AllInjective(ids: map<string, nat>, after: Graph, user: nat, items: seq<EntityItem>)
    requires IdsAreEntities(ids, after.entities, user, items) && Consistent(after)
    ensures Injective(ids)
  {
    hide IdsAreEntities;
    forall x, y | x in ids && y in ids && ids[x] == ids[y]
      ensures x == y
    {
      IdsInjective(ids, after.entities, user, items, x, y);
    }
  }

  lemma CollidesIff(ids: map<string, nat>, user: nat, rels: seq<RelationItem>, relations: seq<Relation>)
    ensures Collides(ids, user, rels, relations) <==>
              exists r, row :: r in relations && row in FlatMap(Resolve(ids, user), rels) && Triple(r) == Triple(row)
  {
    hide FlatMap;
    if r, row :| r in relations && row in FlatMap(Resolve(ids, user), rels) && Triple(r) == Triple(row) {
      AddedTriple(ids, user, rels, Triple(r));
    }
    if i, r :| 0 <= i < |rels| && r in relations && Resolves(ids, rels[i])
               && ResolvedTriple(ids, user, rels[i]) == Triple(r) {
      AddedTriple(ids, user, rels, Triple(r));
    }
  }
}
