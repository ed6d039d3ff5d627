/**
 Repairing the credential references of a workflow against the database.

 Two caches spare the database repeated queries: one by type and name, one by type and id. The
 theorems compare the cached repair with a lookup that has no state at all.
 */
module CredentialRepair {
  import opened Common

  type Id = string
  type Name = string
  type Type = string

  datatype Credential = Credential(kind: Type, name: Name, inProject: bool)

  type Database = map<Id, Credential>

  /** A node's reference: missing, managed elsewhere, a bare name of the old style, or id and name. */
  datatype Reference = Absent | Managed(note: string) | Legacy(legacyName: Name) | Details(id: Option<Id>, name: Name)

  datatype Slot = Slot(kind: Type, ref: Reference)

  datatype Node = Node(disabled: bool, credentials: Option<seq<Slot>>)

  datatype Caches = Caches(byName: map<(Type, Name), Reference>, byId: map<(Type, Id), Reference>)

  const NO_CACHES := Caches(map[], map[])

  // ---------- The stateless lookup ----------

  function Matches(db: Database, t: Type, n: Name): set<Id> {
    set id | id in db && db[id].kind == t && db[id].name == n && db[id].inProject
  }

  /** The credential of that type and name in the project, if there is exactly one. */
  ghost function Unique(db: Database, t: Type, n: Name): (found: Option<Id>)
    ensures found.Some? ==> found.value in Matches(db, t, n)
  {
    var m := Matches(db, t, n);
    if |m| == 1 then (var id :| id in m; Some(id)) else None
  }

  lemma SingletonElement(m: set<Id>, a: Id, b: Id)
    requires |m| == 1 && a in m && b in m
    ensures a == b
  {
    assert |m - {a}| == |m| - 1;
    assert m - {a} == {};
  }

  predicate Exists(db: Database, t: Type, id: Id) {
    id in db && db[id].kind == t
  }

  function Stored(db: Database, id: Id): Reference
    requires id in db
  {
    Details(Some(id), db[id].name)
  }

  ghost function ByName(db: Database, t: Type, n: Name, otherwise: Reference): Reference {
    var found := Unique(db, t, n);
    if found.Some? then Stored(db, found.value) else otherwise
  }

  /** What a reference should become, looked up on its own. */
  ghost function Stateless(db: Database, slot: Slot): Reference {
    match slot.ref
    case Legacy(n) => ByName(db, slot.kind, n, slot.ref)
    case Details(None, n) => ByName(db, slot.kind, n, slot.ref)
    case Details(Some(id), n) =>
      if Exists(db, slot.kind, id) then Stored(db, id) else ByName(db, slot.kind, n, slot.ref)
    case _ => slot.ref
  }

  /** A bare name means the same as a reference with that name and no id. */
  function Normal(r: Reference): Reference {
    if r.Legacy? then Details(None, r.legacyName) else r
  }

  // ---------- The cached repair ----------

  ghost function RepairByName(db: Database, c: Caches, slot: Slot, n: Name): (Caches, Reference) {
    var key := (slot.kind, n);
    if key in c.byName then (c, c.byName[key])
    else
      var value := ByName(db, slot.kind, n, Details(None, n));
      (c.(byName := c.byName[key := value]), ByName(db, slot.kind, n, slot.ref))
  }

  ghost function RepairById(db: Database, c: Caches, slot: Slot, id: Id, n: Name): (Caches, Reference) {
    var key := (slot.kind, id);
    if key in c.byId then (c, c.byId[key])
    else if Exists(db, slot.kind, id) then (c.(byId := c.byId[key := Stored(db, id)]), Stored(db, id))
    else
      var found := Unique(db, slot.kind, n);
      if found.Some? then
        (c.(byId := c.byId[(slot.kind, found.value) := Stored(db, found.value)]), Stored(db, found.value))
      else (c.(byId := c.byId[key := slot.ref]), slot.ref)
  }

  ghost function Repair(db: Database, c: Caches, slot: Slot): (Caches, Reference) {
    match slot.ref
    case Legacy(n) => RepairByName(db, c, slot, n)
    case Details(None, n) => RepairByName(db, c, slot, n)
    case Details(Some(id), n) => RepairById(db, c, slot, id, n)
    case _ => (c, slot.ref)
  }

  ghost function RepairSlots(db: Database, c: Caches, slots: seq<Slot>): (r: (Caches, seq<Slot>))
    ensures |r.1| == |slots|
    decreases |slots|
  {
    if slots == [] then (c, [])
    else
      var (c1, ref) := Repair(db, c, slots[0]);
      var (c2, rest) := RepairSlots(db, c1, slots[1..]);
      (c2, [slots[0].(ref := ref)] + rest)
  }

  ghost function RepairNodes(db: Database, c: Caches, nodes: seq<Node>): (Caches, seq<Node>)
    decreases |nodes|
  {
    if nodes == [] then (c, [])
    else if nodes[0].disabled || nodes[0].credentials.None? then
      var (c2, rest) := RepairNodes(db, c, nodes[1..]);
      (c2, [nodes[0]] + rest)
    else
      var (c1, slots) := RepairSlots(db, c, nodes[0].credentials.value);
      var (c2, rest) := RepairNodes(db, c1, nodes[1..]);
      (c2, [nodes[0].(credentials := Some(slots))] + rest)
  }

  // ---------- When the caches agree with the lookup ----------

  /** A reference by id that neither its id nor its name resolves. */
  ghost predicate Unresolvable(db: Database, slot: Slot) {
    && slot.ref.Details? && slot.ref.id.Some?
    && !Exists(db, slot.kind, slot.ref.id.value) && Unique(db, slot.kind, slot.ref.name).None?
  }

  predicate SameId(a: Slot, b: Slot) {
    a.ref.Details? && b.ref.Details? && a.ref.id.Some? && a.kind == b.kind && a.ref.id == b.ref.id
  }

  /** `slot` carries the name of every earlier unresolvable reference with its type and id. */
  ghost predicate Consistent(db: Database, earlier: seq<Slot>, slot: Slot) {
    forall i :: 0 <= i < |earlier| && Unresolvable(db, earlier[i]) && SameId(earlier[i], slot) ==>
      earlier[i].ref.name == slot.ref.name
  }

  ghost predicate Agrees(db: Database, slot: Slot, result: Reference) {
    Normal(result) == Normal(Stateless(db, slot))
  }

  ghost predicate NamesCached(db: Database, c: Caches) {
    forall key :: key in c.byName ==> c.byName[key] == ByName(db, key.0, key.1, Details(None, key.1))
  }

  /** A cached id is a stored credential, or an unresolvable reference with that id. */
  ghost predicate IdsCached(db: Database, c: Caches) {
    forall key :: key in c.byId ==>
      if Exists(db, key.0, key.1) then c.byId[key] == Stored(db, key.1)
      else Unresolvable(db, Slot(key.0, c.byId[key])) && c.byId[key].id == Some(key.1)
  }

  ghost predicate EarlierCached(db: Database, c: Caches, earlier: seq<Slot>) {
    && (forall i :: 0 <= i < |earlier| && Unresolvable(db, earlier[i]) ==>
          var key := (earlier[i].kind, earlier[i].ref.id.value);
          key in c.byId && c.byId[key] == earlier[i].ref)
    && (forall key :: key in c.byId && !Exists(db, key.0, key.1) ==>
          exists i :: 0 <= i < |earlier| && earlier[i] == Slot(key.0, c.byId[key]))
  }

  ghost predicate CachesOk(db: Database, c: Caches, earlier: seq<Slot>) {
    NamesCached(db, c) && IdsCached(db, c) && EarlierCached(db, c, earlier)
  }

  lemma RepairByNameKeepsSound(db: Database, c: Caches, slot: Slot, n: Name)
    requires NamesCached(db, c)
    ensures NamesCached(db, RepairByName(db, c, slot, n).0) && RepairByName(db, c, slot, n).0.byId == c.byId
  {
  }

  lemma RepairByIdKeepsSound(db: Database, c: Caches, slot: Slot)
    requires IdsCached(db, c) && slot.ref.Details? && slot.ref.id.Some?
    ensures var c' := RepairById(db, c, slot, slot.ref.id.value, slot.ref.name).0;
            IdsCached(db, c') && c'.byName == c.byName
  {
  }

  lemma RepairKeepsSound(db: Database, c: Caches, slot: Slot)
    requires NamesCached(db, c) && IdsCached(db, c)
    ensures NamesCached(db, Repair(db, c, slot).0) && IdsCached(db, Repair(db, c, slot).0)
  {
    match slot.ref
    case Legacy(n) => RepairByNameKeepsSound(db, c, slot, n);
    case Details(None, n) => RepairByNameKeepsSound(db, c, slot, n);
    case Details(Some(_), _) => RepairByIdKeepsSound(db, c, slot);
    case _ =>
  }

  /**
   One reference is repaired as the stateless lookup would,
   exactly if its name is consistent with the earlier ones.
   */
  lemma RepairAgreesIffConsistent(db: Database, c: Caches, earlier: seq<Slot>, slot: Slot)
    requires CachesOk(db, c, earlier)
    ensures Agrees(db, slot, Repair(db, c, slot).1) <==> Consistent(db, earlier, slot)
    ensures Consistent(db, earlier, slot) ==> CachesOk(db, Repair(db, c, slot).0, earlier + [slot])
  {
    RepairKeepsSound(db, c, slot);
    var c' := Repair(db, c, slot).0;
    if slot.ref.Details? && slot.ref.id.Some? {
      var key := (slot.kind, slot.ref.id.value);
      if key in c.byId {
        KnownIdAgreesIffConsistent(db, c, earlier, slot);
      } else {
        NewIdIsCached(db, c, earlier, slot);
      }
    } else {
      assert c'.byId == c.byId;
      StillCached(db, c, earlier, slot);
    }
  }

  lemma StillCached(db: Database, c: Caches, earlier: seq<Slot>, slot: Slot)
    requires EarlierCached(db, c, earlier)
    requires Unresolvable(db, slot) ==>
        (slot.kind, slot.ref.id.value) in c.byId && c.byId[(slot.kind, slot.ref.id.value)] == slot.ref
    ensures EarlierCached(db, c, earlier + [slot])
  {
    var all := earlier + [slot];
    forall key | key in c.byId && !Exists(db, key.0, key.1)
      ensures exists i :: 0 <= i < |all| && all[i] == Slot(key.0, c.byId[key])
    {
      var i :| 0 <= i < |earlier| && earlier[i] == Slot(key.0, c.byId[key]);
      assert all[i] == Slot(key.0, c.byId[key]);
    }
  }

  lemma KnownIdAgreesIffConsistent(db: Database, c: Caches, earlier: seq<Slot>, slot: Slot)
    requires CachesOk(db, c, earlier) && slot.ref.Details? && slot.ref.id.Some?
    requires (slot.kind, slot.ref.id.value) in c.byId
    ensures Agrees(db, slot, Repair(db, c, slot).1) <==> Consistent(db, earlier, slot)
    ensures Consistent(db, earlier, slot) ==> CachesOk(db, Repair(db, c, slot).0, earlier + [slot])
  {
    var key := (slot.kind, slot.ref.id.value);
    if Exists(db, slot.kind, slot.ref.id.value) {
      StillCached(db, c, earlier, slot);
    } else {
      var i :| 0 <= i < |earlier| && earlier[i] == Slot(slot.kind, c.byId[key]);
      assert Unresolvable(db, earlier[i]) && SameId(earlier[i], slot);
      if earlier[i].ref.name == slot.ref.name {
        assert c.byId[key] == slot.ref;
        StillCached(db, c, earlier, slot);
      }
    }
  }

  lemma NewIdIsCached(db: Database, c: Caches, earlier: seq<Slot>, slot: Slot)
    requires CachesOk(db, c, earlier) && slot.ref.Details? && slot.ref.id.Some?
    requires (slot.kind, slot.ref.id.value) !in c.byId
    ensures Agrees(db, slot, Repair(db, c, slot).1) && Consistent(db, earlier, slot)
    ensures EarlierCached(db, Repair(db, c, slot).0, earlier + [slot])
  {
    var c', all := Repair(db, c, slot).0, earlier + [slot];
    assert all[|earlier|] == slot;
    forall key | key in c'.byId && !Exists(db, key.0, key.1)
      ensures exists i :: 0 <= i < |all| && all[i] == Slot(key.0, c'.byId[key])
    {
      if key in c.byId && c'.byId[key] == c.byId[key] {
        var i :| 0 <= i < |earlier| && earlier[i] == Slot(key.0, c.byId[key]);
        assert all[i] == Slot(key.0, c'.byId[key]);
      }
    }
  }

  ghost predicate AllAgree(db: Database, slots: seq<Slot>, results: seq<Slot>)
    requires |results| == |slots|
  {
    forall k :: 0 <= k < |slots| ==> Agrees(db, slots[k], results[k].ref)
  }

  ghost predicate AllConsistent(db: Database, earlier: seq<Slot>, slots: seq<Slot>) {
    forall k :: 0 <= k < |slots| ==> Consistent(db, earlier + slots[..k], slots[k])
  }

  lemma {:induction false} SlotsAgreeIffConsistent(db: Database, c: Caches, earlier: seq<Slot>, slots: seq<Slot>)
    requires CachesOk(db, c, earlier)
    ensures AllAgree(db, slots, RepairSlots(db, c, slots).1) <==> AllConsistent(db, earlier, slots)
    decreases |slots|
  {
    if slots != [] {
      var (c1, ref) := Repair(db, c, slots[0]);
      var results := RepairSlots(db, c, slots).1;
      RepairAgreesIffConsistent(db, c, earlier, slots[0]);
      assert results[0].ref == ref && results[1..] == RepairSlots(db, c1, slots[1..]).1;
      assert earlier + slots[..0] == earlier;
      if Consistent(db, earlier, slots[0]) {
        SlotsAgreeIffConsistent(db, c1, earlier + [slots[0]], slots[1..]);
        ShiftConsistent(db, earlier, slots);
        ShiftAgree(db, slots, results);
      } else {
        assert !Agrees(db, slots[0], results[0].ref);
        assert !Consistent(db, earlier + slots[..0], slots[0]);
      }
    }
  }

  lemma ShiftConsistent(db: Database, earlier: seq<Slot>, slots: seq<Slot>)
    requires slots != [] && Consistent(db, earlier, slots[0])
    ensures AllConsistent(db, earlier, slots) <==> AllConsistent(db, earlier + [slots[0]], slots[1..])
  {
    forall k | 0 <= k < |slots| - 1
      ensures Consistent(db, earlier + slots[..k + 1], slots[k + 1])
         <==> Consistent(db, earlier + [slots[0]] + slots[1..][..k], slots[1..][k])
    {
      assert earlier + slots[..k + 1] == earlier + [slots[0]] + slots[1..][..k];
    }
    assert earlier + slots[..0] == earlier;
    if AllConsistent(db, earlier + [slots[0]], slots[1..]) {
      forall k | 0 <= k < |slots| ensures Consistent(db, earlier + slots[..k], slots[k]) {
        if k > 0 { assert Consistent(db, earlier + [slots[0]] + slots[1..][..k - 1], slots[1..][k - 1]); }
      }
    }
    if AllConsistent(db, earlier, slots) {
      forall k | 0 <= k < |slots| - 1 ensures Consistent(db, earlier + [slots[0]] + slots[1..][..k], slots[1..][k]) {
        assert Consistent(db, earlier + slots[..k + 1], slots[k + 1]);
      }
    }
  }

  lemma ShiftAgree(db: Database, slots: seq<Slot>, results: seq<Slot>)
    requires slots != [] && |results| == |slots| && Agrees(db, slots[0], results[0].ref)
    ensures AllAgree(db, slots, results) <==> AllAgree(db, slots[1..], results[1..])
  {
    if AllAgree(db, slots[1..], results[1..]) {
      forall k | 0 <= k < |slots| ensures Agrees(db, slots[k], results[k].ref) {
        if k > 0 { assert Agrees(db, slots[1..][k - 1], results[1..][k - 1].ref); }
      }
    }
    if AllAgree(db, slots, results) {
      forall k | 0 <= k < |slots| - 1 ensures Agrees(db, slots[1..][k], results[1..][k].ref) {
        assert Agrees(db, slots[k + 1], results[k + 1].ref);
      }
    }
  }

  // ---------- From slots to workflows ----------

  /** The references of the enabled nodes, in the order in which they are visited. */
  function Visits(nodes: seq<Node>): seq<Slot> {
    if nodes == [] then []
    else (if nodes[0].disabled || nodes[0].credentials.None? then [] else nodes[0].credentials.value)
         + Visits(nodes[1..])
  }

  lemma {:induction false} RepairConcat(db: Database, c: Caches, a: seq<Slot>, b: seq<Slot>)
    ensures var (c1, ra) := RepairSlots(db, c, a);
            var (c2, rb) := RepairSlots(db, c1, b);
            RepairSlots(db, c, a + b) == (c2, ra + rb)
    decreases |a|
  {
    if a == [] {
      assert a + b == b;
      assert [] + RepairSlots(db, c, b).1 == RepairSlots(db, c, b).1;
    } else {
      assert (a + b)[1..] == a[1..] + b;
      RepairConcat(db, Repair(db, c, a[0]).0, a[1..], b);
      var (c1, ra) := RepairSlots(db, c, a);
      var rb := RepairSlots(db, c1, b).1;
      var head := a[0].(ref := Repair(db, c, a[0]).1);
      var tail := RepairSlots(db, Repair(db, c, a[0]).0, a[1..]).1;
      assert ra == [head] + tail;
      assert [head] + (tail + rb) == ra + rb;
    }
  }

  /** A repair changes nothing but the references it visits, and leaves disabled nodes as they are. */
  lemma {:induction false} RepairNodesIsRepairOfVisits(db: Database, c: Caches, nodes: seq<Node>)
    ensures var (c', nodes') := RepairNodes(db, c, nodes);
      && |nodes'| == |nodes|
      && RepairSlots(db, c, Visits(nodes)) == (c', Visits(nodes'))
      && (forall k :: 0 <= k < |nodes| ==> nodes'[k].disabled == nodes[k].disabled)
      && (forall k :: 0 <= k < |nodes| && (nodes[k].disabled || nodes[k].credentials.None?) ==> nodes'[k] == nodes[k])
    decreases |nodes|
  {
    if nodes != [] {
      if nodes[0].disabled || nodes[0].credentials.None? {
        RepairNodesIsRepairOfVisits(db, c, nodes[1..]);
        assert Visits(nodes) == Visits(nodes[1..]);
        assert RepairNodes(db, c, nodes).1[1..] == RepairNodes(db, c, nodes[1..]).1;
        assert Visits(RepairNodes(db, c, nodes).1) == Visits(RepairNodes(db, c, nodes[1..]).1);
      } else {
        var (c1, slots) := RepairSlots(db, c, nodes[0].credentials.value);
        RepairNodesIsRepairOfVisits(db, c1, nodes[1..]);
        RepairConcat(db, c, nodes[0].credentials.value, Visits(nodes[1..]));
        assert RepairNodes(db, c, nodes).1[1..] == RepairNodes(db, c1, nodes[1..]).1;
      }
    }
  }

  /**
   For a fixed database the cached repair gives every visited reference what a stateless lookup
   would, if and only if no reference carries a different name than an earlier unresolvable one
   with its type and id.
   */
  lemma CachedRepairAgreesIffNamesConsistent(db: Database, nodes: seq<Node>)
    ensures var results := Visits(RepairNodes(db, NO_CACHES, nodes).1);
      && |results| == |Visits(nodes)|
      && (AllAgree(db, Visits(nodes), results) <==> AllConsistent(db, [], Visits(nodes)))
  {
    RepairNodesIsRepairOfVisits(db, NO_CACHES, nodes);
    SlotsAgreeIffConsistent(db, NO_CACHES, [], Visits(nodes));
  }

  // ---------- What a repaired reference refers to ----------

  /** The only credential in the project with this type and name. */
  ghost predicate Sole(db: Database, t: Type, n: Name, id: Id) {
    && id in db && db[id].kind == t && db[id].name == n && db[id].inProject
    && forall other :: other in db && db[other].kind == t && db[other].name == n && db[other].inProject ==> other == id
  }

  lemma UniqueIsSole(db: Database, t: Type, n: Name)
    ensures Unique(db, t, n).Some? <==> exists id :: Sole(db, t, n, id)
    ensures Unique(db, t, n).Some? ==> Sole(db, t, n, Unique(db, t, n).value)
  {
    var m := Matches(db, t, n);
    if |m| == 1 {
      var id := Unique(db, t, n).value;
      forall other | other in db && db[other].kind == t && db[other].name == n && db[other].inProject
        ensures other == id
      {
        SingletonElement(m, other, id);
      }
      assert Sole(db, t, n, id);
    }
    if exists id :: Sole(db, t, n, id) {
      var id :| Sole(db, t, n, id);
      assert m == {id};
    }
  }

  /** By name: the sole credential of that name, or still nothing but the name. */
  ghost predicate FoundByName(db: Database, slot: Slot, n: Name, ref: Reference) {
    if exists id :: Sole(db, slot.kind, n, id)
    then ref.Details? && ref.name == n && ref.id.Some? && Sole(db, slot.kind, n, ref.id.value)
    else ref == slot.ref || ref == Details(None, n)
  }

  /**
   By id: the credential with that id and type under the name it is stored with. If there is none,
   the sole credential of the name, or still the same id, and never another credential.
   */
  ghost predicate FoundById(db: Database, slot: Slot, id: Id, n: Name, ref: Reference) {
    ref.Details? && ref.id.Some? &&
    if id in db && db[id].kind == slot.kind then ref.id == Some(id) && ref.name == db[id].name
    else ref.id == Some(id) || (ref.name == n && Sole(db, slot.kind, n, ref.id.value))
  }

  ghost predicate Repaired(db: Database, slot: Slot, ref: Reference) {
    match slot.ref
    case Legacy(n) => FoundByName(db, slot, n, ref)
    case Details(None, n) => FoundByName(db, slot, n, ref)
    case Details(Some(id), n) => FoundById(db, slot, id, n, ref)
    case Absent => ref == slot.ref
    case Managed(_) => ref == slot.ref
  }

  lemma RepairFinds(db: Database, c: Caches, slot: Slot)
    requires NamesCached(db, c) && IdsCached(db, c)
    ensures Repaired(db, slot, Repair(db, c, slot).1)
  {
    match slot.ref
    case Legacy(n) => UniqueIsSole(db, slot.kind, n);
    case Details(None, n) => UniqueIsSole(db, slot.kind, n);
    case Details(Some(_), n) => UniqueIsSole(db, slot.kind, n);
    case _ =>
  }

  lemma {:induction false} SlotsRepaired(db: Database, c: Caches, slots: seq<Slot>, k: nat)
    requires NamesCached(db, c) && IdsCached(db, c) && k < |slots|
    ensures var slot := RepairSlots(db, c, slots).1[k];
      slot.kind == slots[k].kind && Repaired(db, slots[k], slot.ref)
    decreases |slots|
  {
    RepairFinds(db, c, slots[0]);
    if k > 0 {
      RepairKeepsSound(db, c, slots[0]);
      SlotsRepaired(db, Repair(db, c, slots[0]).0, slots[1..], k - 1);
    }
  }

  lemma {:induction false} SlotsKeepSound(db: Database, c: Caches, slots: seq<Slot>)
    requires NamesCached(db, c) && IdsCached(db, c)
    ensures NamesCached(db, RepairSlots(db, c, slots).0) && IdsCached(db, RepairSlots(db, c, slots).0)
    decreases |slots|
  {
    if slots != [] {
      RepairKeepsSound(db, c, slots[0]);
      SlotsKeepSound(db, Repair(db, c, slots[0]).0, slots[1..]);
    }
  }

  /** Every reference of every enabled node is repaired in its place. */
  ghost predicate NodeRepaired(db: Database, before: Node, after: Node) {
    if before.disabled || before.credentials.None? then after == before
    else
      && !after.disabled && after.credentials.Some? && |after.credentials.value| == |before.credentials.value|
      && forall j :: 0 <= j < |before.credentials.value| ==>
           && after.credentials.value[j].kind == before.credentials.value[j].kind
           && Repaired(db, before.credentials.value[j], after.credentials.value[j].ref)
  }

  lemma {:induction false} NodesRepaired(db: Database, c: Caches, nodes: seq<Node>)
    requires NamesCached(db, c) && IdsCached(db, c)
    ensures var nodes' := RepairNodes(db, c, nodes).1;
      |nodes'| == |nodes| && forall k :: 0 <= k < |nodes| ==> NodeRepaired(db, nodes[k], nodes'[k])
    decreases |nodes|
  {
    if nodes != [] {
      if nodes[0].disabled || nodes[0].credentials.None? {
        NodesRepaired(db, c, nodes[1..]);
      } else {
        var slots := nodes[0].credentials.value;
        forall j | 0 <= j < |slots|
          ensures RepairSlots(db, c, slots).1[j].kind == slots[j].kind
          ensures Repaired(db, slots[j], RepairSlots(db, c, slots).1[j].ref)
        {
          SlotsRepaired(db, c, slots, j);
        }
        SlotsKeepSound(db, c, slots);
        NodesRepaired(db, RepairSlots(db, c, slots).0, nodes[1..]);
      }
    }
  }

  /** In every workflow, every visited reference ends as one that refers to what it asked for. */
  lemma EveryReferenceIsRepaired(db: Database, nodes: seq<Node>, k: nat)
    requires k < |Visits(nodes)|
    ensures var results := Visits(RepairNodes(db, NO_CACHES, nodes).1);
      && |results| == |Visits(nodes)| && results[k].kind == Visits(nodes)[k].kind
      && Repaired(db, Visits(nodes)[k], results[k].ref)
  {
    RepairNodesIsRepairOfVisits(db, NO_CACHES, nodes);
    SlotsRepaired(db, NO_CACHES, Visits(nodes), k);
  }

  /**
   If the names are consistent, a reference whose id is unknown becomes the sole credential of its
   name, if there is one, and is left alone otherwise.
   */
  lemma ConsistentNamesReplaceUnknownIds(db: Database, nodes: seq<Node>, k: nat, id: Id, n: Name)
    requires AllConsistent(db, [], Visits(nodes))
    requires k < |Visits(nodes)| && Visits(nodes)[k].ref == Details(Some(id), n)
    requires !(id in db && db[id].kind == Visits(nodes)[k].kind)
    ensures var slot, results := Visits(nodes)[k], Visits(RepairNodes(db, NO_CACHES, nodes).1);
      && |results| == |Visits(nodes)|
      && (forall found :: Sole(db, slot.kind, n, found) ==> results[k].ref == Details(Some(found), n))
      && ((forall found :: !Sole(db, slot.kind, n, found)) ==> results[k].ref == slot.ref)
  {
    CachedRepairAgreesIffNamesConsistent(db, nodes);
    var slot, results := Visits(nodes)[k], Visits(RepairNodes(db, NO_CACHES, nodes).1);
    assert Agrees(db, slot, results[k].ref);
    UniqueIsSole(db, slot.kind, n);
    EveryReferenceIsRepaired(db, nodes, k);
  }

  lemma OneSlot(db: Database, c: Caches, slot: Slot)
    ensures var (c', ref) := Repair(db, c, slot);
      RepairSlots(db, c, [slot]) == (c', [slot.(ref := ref)])
  {
    var (c', ref) := Repair(db, c, slot);
    assert [slot][1..] == [];
    assert RepairSlots(db, c', [slot][1..]) == (c', []);
    assert [slot.(ref := ref)] + [] == [slot.(ref := ref)];
  }

  /**
   A bare name that finds nothing is left as it is the first time, and becomes a reference without
   an id when the cache is asked for it again.
   */
  lemma UnfoundNameSeenTwice(db: Database, kind: Type, n: Name)
    requires forall id :: !Sole(db, kind, n, id)
    ensures var node := Node(false, Some([Slot(kind, Legacy(n))]));
      RepairNodes(db, NO_CACHES, [node, node]).1 == [node, Node(false, Some([Slot(kind, Details(None, n))]))]
  {
    var slots := [Slot(kind, Legacy(n))];
    var node := Node(false, Some(slots));
    UniqueIsSole(db, kind, n);
    var c1 := Caches(map[(kind, n) := Details(None, n)], map[]);
    assert [node, node][1..] == [node] && [node][1..] == [];
    OneSlot(db, NO_CACHES, Slot(kind, Legacy(n)));
    OneSlot(db, c1, Slot(kind, Legacy(n)));
    assert Repair(db, NO_CACHES, Slot(kind, Legacy(n))) == (c1, Legacy(n));
    assert RepairNodes(db, c1, [node]).1 == [Node(false, Some([Slot(kind, Details(None, n))]))];
  }

  // ---------- A second pass changes nothing ----------

  /** What the caches of a second pass may hold while the first pass stands at `c`. */
  ghost predicate Follows(db: Database, c: Caches, d: Caches) {
    && (forall key :: key in d.byName ==>
          key in c.byName && Unique(db, key.0, key.1).None? && d.byName[key] == Details(None, key.1))
    && (forall key :: key in d.byId ==>
          if Exists(db, key.0, key.1) then d.byId[key] == Stored(db, key.1)
          else key in c.byId && d.byId[key] == c.byId[key])
  }

  lemma SecondByNameIsIdentity(db: Database, c: Caches, d: Caches, slot: Slot, n: Name)
    requires NamesCached(db, c) && Follows(db, c, d)
    requires slot.ref == Legacy(n) || slot.ref == Details(None, n)
    ensures var (c', ref) := RepairByName(db, c, slot, n);
            var (d', again) := Repair(db, d, slot.(ref := ref));
            again == ref && Follows(db, c', d')
  {
    var found := Unique(db, slot.kind, n);
    var (c', ref) := RepairByName(db, c, slot, n);
    RepairByNameKeepsSound(db, c, slot, n);
    if found.Some? {
      assert ref == Stored(db, found.value);
      RepairAgain(db, c', d, Slot(slot.kind, ref));
    } else {
      RepairUnresolvedName(db, c', d, Slot(slot.kind, ref), n);
    }
  }

  lemma RepairUnresolvedName(db: Database, c: Caches, d: Caches, slot: Slot, n: Name)
    requires Follows(db, c, d) && Unique(db, slot.kind, n).None? && (slot.kind, n) in c.byName
    requires slot.ref == Details(None, n) || (slot.ref == Legacy(n) && (slot.kind, n) !in d.byName)
    ensures Repair(db, d, slot).1 == slot.ref && Follows(db, c, Repair(db, d, slot).0)
  {
  }

  /** A repaired reference by id is a stored credential, or an unresolvable reference that is now cached. */
  lemma RepairedById(db: Database, c: Caches, slot: Slot)
    requires IdsCached(db, c) && slot.ref.Details? && slot.ref.id.Some?
    ensures var (c', ref) := RepairById(db, c, slot, slot.ref.id.value, slot.ref.name);
      && ref.Details? && ref.id.Some?
      && (if Exists(db, slot.kind, ref.id.value) then ref == Stored(db, ref.id.value)
          else Unresolvable(db, Slot(slot.kind, ref)) && (slot.kind, ref.id.value) in c'.byId
               && c'.byId[(slot.kind, ref.id.value)] == ref)
      && c'.byName == c.byName
      && (forall key :: key in c.byId && !Exists(db, key.0, key.1) ==> key in c'.byId && c'.byId[key] == c.byId[key])
  {
  }

  lemma RepairAgain(db: Database, c: Caches, d: Caches, slot: Slot)
    requires Follows(db, c, d) && slot.ref.Details? && slot.ref.id.Some?
    requires if Exists(db, slot.kind, slot.ref.id.value) then slot.ref == Stored(db, slot.ref.id.value)
             else Unresolvable(db, slot) && (slot.kind, slot.ref.id.value) in c.byId
                  && c.byId[(slot.kind, slot.ref.id.value)] == slot.ref
    ensures Repair(db, d, slot).1 == slot.ref && Follows(db, c, Repair(db, d, slot).0)
  {
  }

  lemma SecondByIdIsIdentity(db: Database, c: Caches, d: Caches, slot: Slot)
    requires IdsCached(db, c) && Follows(db, c, d) && slot.ref.Details? && slot.ref.id.Some?
    ensures var (c', ref) := RepairById(db, c, slot, slot.ref.id.value, slot.ref.name);
            var (d', again) := Repair(db, d, slot.(ref := ref));
            again == ref && Follows(db, c', d')
  {
    var (c', ref) := RepairById(db, c, slot, slot.ref.id.value, slot.ref.name);
    RepairedById(db, c, slot);
    RepairAgain(db, c', d, Slot(slot.kind, ref));
  }

  lemma SecondRepairIsIdentity(db: Database, c: Caches, d: Caches, slot: Slot)
    requires NamesCached(db, c) && IdsCached(db, c) && Follows(db, c, d)
    ensures var (c', ref) := Repair(db, c, slot);
            var (d', again) := Repair(db, d, slot.(ref := ref));
            again == ref && Follows(db, c', d')
  {
    match slot.ref
    case Legacy(n) => SecondByNameIsIdentity(db, c, d, slot, n);
    case Details(None, n) => SecondByNameIsIdentity(db, c, d, slot, n);
    case Details(Some(_), _) => SecondByIdIsIdentity(db, c, d, slot);
    case _ =>
  }

  lemma {:induction false} SecondPassOverSlots(db: Database, c: Caches, d: Caches, slots: seq<Slot>)
    requires NamesCached(db, c) && IdsCached(db, c) && Follows(db, c, d)
    ensures var (c', once) := RepairSlots(db, c, slots); RepairSlots(db, d, once).1 == once
    decreases |slots|
  {
    if slots != [] {
      var (c1, ref) := Repair(db, c, slots[0]);
      var first := slots[0].(ref := ref);
      RepairKeepsSound(db, c, slots[0]);
      SecondRepairIsIdentity(db, c, d, slots[0]);
      SecondPassOverSlots(db, c1, Repair(db, d, first).0, slots[1..]);
      var rest := RepairSlots(db, c1, slots[1..]).1;
      assert ([first] + rest)[1..] == rest;
    }
  }

  lemma {:induction false} SameVisitsSameNodes(a: seq<Node>, b: seq<Node>)
    requires |a| == |b| && Visits(a) == Visits(b)
    requires forall k :: 0 <= k < |a| ==> a[k].disabled == b[k].disabled
    requires forall k :: 0 <= k < |a| ==>
        if a[k].disabled || a[k].credentials.None? then a[k] == b[k]
        else b[k].credentials.Some? && |a[k].credentials.value| == |b[k].credentials.value|
    ensures a == b
  {
    if a != [] {
      if !(a[0].disabled || a[0].credentials.None?) {
        var n := |a[0].credentials.value|;
        assert Visits(a)[..n] == a[0].credentials.value && Visits(b)[..n] == b[0].credentials.value;
        assert Visits(a)[n..] == Visits(a[1..]) && Visits(b)[n..] == Visits(b[1..]);
      } else {
        assert Visits(a) == Visits(a[1..]) && Visits(b) == Visits(b[1..]);
      }
      SameVisitsSameNodes(a[1..], b[1..]);
      assert a == [a[0]] + a[1..] && b == [b[0]] + b[1..];
    }
  }

  lemma {:induction false} RepairKeepsShape(db: Database, c: Caches, nodes: seq<Node>)
    ensures var nodes' := RepairNodes(db, c, nodes).1;
      && |nodes'| == |nodes|
      && forall k :: 0 <= k < |nodes| ==>
           if nodes[k].disabled || nodes[k].credentials.None? then nodes'[k] == nodes[k]
           else !nodes'[k].disabled && nodes'[k].credentials.Some?
                && |nodes'[k].credentials.value| == |nodes[k].credentials.value|
    decreases |nodes|
  {
    if nodes != [] {
      if nodes[0].disabled || nodes[0].credentials.None? {
        RepairKeepsShape(db, c, nodes[1..]);
      } else {
        RepairKeepsShape(db, RepairSlots(db, c, nodes[0].credentials.value).0, nodes[1..]);
      }
    }
  }

  /** Repairing a repaired workflow changes nothing, whether or not the names are consistent. */
  lemma SecondPassChangesNothing(db: Database, nodes: seq<Node>)
    ensures var once := RepairNodes(db, NO_CACHES, nodes).1;
            RepairNodes(db, NO_CACHES, once).1 == once
  {
    var once := RepairNodes(db, NO_CACHES, nodes).1;
    var twice := RepairNodes(db, NO_CACHES, once).1;
    RepairNodesIsRepairOfVisits(db, NO_CACHES, nodes);
    RepairNodesIsRepairOfVisits(db, NO_CACHES, once);
    SecondPassOverSlots(db, NO_CACHES, NO_CACHES, Visits(nodes));
    RepairKeepsShape(db, NO_CACHES, nodes);
    RepairKeepsShape(db, NO_CACHES, once);
    SameVisitsSameNodes(once, twice);
  }

  // ---------- The loops ----------

  method FindUnique(db: Database, t: Type, n: Name) returns (found: Option<Id>)
    ensures found == Unique(db, t, n)
  {
    var matches := Matches(db, t, n);
    if |matches| == 1 {
      var id :| id in matches;
      SingletonElement(matches, id, Unique(db, t, n).value);
      return Some(id);
    }
    return None;
  }

  method RepairOne(db: Database, c: Caches, slot: Slot) returns (c': Caches, ref: Reference)
    ensures (c', ref) == Repair(db, c, slot)
    ensures NamesCached(db, c) && IdsCached(db, c) ==> Repaired(db, slot, ref)
  {
    if NamesCached(db, c) && IdsCached(db, c) { RepairFinds(db, c, slot); }
    c', ref := c, slot.ref;
    if slot.ref.Absent? || slot.ref.Managed? {
      return;
    }
    if slot.ref.Legacy? || slot.ref.id.None? {
      var name := if slot.ref.Legacy? then slot.ref.legacyName else slot.ref.name;
      if (slot.kind, name) in c.byName {
        ref := c.byName[(slot.kind, name)];
        return;
      }
      var found := FindUnique(db, slot.kind, name);
      if found.Some? {
        ref := Stored(db, found.value);
        c' := c.(byName := c.byName[(slot.kind, name) := ref]);
      } else {
        // nothing found: remember it, but leave the node as it is
        c' := c.(byName := c.byName[(slot.kind, name) := Details(None, name)]);
      }
      return;
    }
    var id := slot.ref.id.value;
    if (slot.kind, id) in c.byId {
      ref := c.byId[(slot.kind, id)];
      return;
    }
    if Exists(db, slot.kind, id) {
      ref := Stored(db, id);
      c' := c.(byId := c.byId[(slot.kind, id) := ref]);
      return;
    }
    var found := FindUnique(db, slot.kind, slot.ref.name);
    if found.Some? {
      // remembered under the id that was found, not under the one that was asked for
      ref := Stored(db, found.value);
      c' := c.(byId := c.byId[(slot.kind, found.value) := ref]);
    } else {
      c' := c.(byId := c.byId[(slot.kind, id) := slot.ref]);
    }
  }

  /** One iteration of the loop over the nodes leaves the final result as it was. */
  lemma NextNode(db: Database, c: Caches, nodes: seq<Node>, k: nat)
    requires k < |nodes|
    ensures nodes[k].disabled || nodes[k].credentials.None? ==>
        nodes[..k] + RepairNodes(db, c, nodes[k..]).1 == nodes[..k + 1] + RepairNodes(db, c, nodes[k + 1..]).1
    ensures !nodes[k].disabled && nodes[k].credentials.Some? ==>
        var (c1, slots) := RepairSlots(db, c, nodes[k].credentials.value);
        var after := nodes[k := nodes[k].(credentials := Some(slots))];
        nodes[..k] + RepairNodes(db, c, nodes[k..]).1 == after[..k + 1] + RepairNodes(db, c1, after[k + 1..]).1
  {
    assert nodes[k..][0] == nodes[k] && nodes[k..][1..] == nodes[k + 1..];
    if nodes[k].disabled || nodes[k].credentials.None? {
      assert nodes[..k + 1] == nodes[..k] + [nodes[k]];
    } else {
      var slots := RepairSlots(db, c, nodes[k].credentials.value).1;
      var node := nodes[k].(credentials := Some(slots));
      assert nodes[k := node][..k + 1] == nodes[..k] + [node] && nodes[k := node][k + 1..] == nodes[k + 1..];
    }
  }

  class Workflow {
    var nodes: seq<Node>

    constructor (nodes: seq<Node>)
      ensures this.nodes == nodes
    {
      this.nodes := nodes;
    }

    method RepairNode(db: Database, c: Caches, k: nat) returns (c': Caches)
      requires k < |nodes| && nodes[k].credentials.Some?
      modifies this
      ensures |nodes| == old(|nodes|)
      ensures var (after, slots) := RepairSlots(db, c, old(nodes[k].credentials.value));
              c' == after && nodes == old(nodes)[k := old(nodes[k]).(credentials := Some(slots))]
    {
      var slots := nodes[k].credentials.value;
      c' := c;
      var i := 0;
      assert slots[0..] == slots && slots[..0] + RepairSlots(db, c, slots).1 == RepairSlots(db, c, slots).1;
      while i < |slots|
        invariant i <= |slots| == |old(nodes[k].credentials.value)|
        invariant slots[i..] == old(nodes[k].credentials.value)[i..] && nodes == old(nodes)
        invariant var (after, rest) := RepairSlots(db, c', slots[i..]);
                  (after, slots[..i] + rest) == RepairSlots(db, c, old(nodes[k].credentials.value))
      {
        var slot := slots[i];
        assert slots[i..][0] == slot && slots[i..][1..] == slots[i + 1..];
        ghost var rest := RepairSlots(db, Repair(db, c', slot).0, slots[i + 1..]).1;
        ghost var done := slots[..i];
        var ref: Reference;
        c', ref := RepairOne(db, c', slot);
        slots := slots[i := slot.(ref := ref)];
        assert slots[..i + 1] == done + [slot.(ref := ref)];
        assert done + ([slot.(ref := ref)] + rest) == slots[..i + 1] + rest;
        i := i + 1;
      }
      assert slots[..i] + [] == slots;
      nodes := nodes[k := nodes[k].(credentials := Some(slots))];
    }

    method ReplaceInvalidCredentials(db: Database)
      modifies this
      ensures nodes == RepairNodes(db, NO_CACHES, old(nodes)).1
      ensures |nodes| == |old(nodes)| && forall k :: 0 <= k < |nodes| ==> NodeRepaired(db, old(nodes)[k], nodes[k])
    {
      var c := NO_CACHES;
      var k := 0;
      assert nodes[0..] == nodes && [] + RepairNodes(db, c, nodes).1 == RepairNodes(db, c, nodes).1;
      while k < |nodes|
        invariant k <= |nodes| == |old(nodes)|
        invariant nodes[..k] + RepairNodes(db, c, nodes[k..]).1 == RepairNodes(db, NO_CACHES, old(nodes)).1
      {
        NextNode(db, c, nodes, k);
        if !nodes[k].disabled && nodes[k].credentials.Some? {
          c := RepairNode(db, c, k);
        }
        k := k + 1;
      }
      assert nodes[..k] + [] == nodes;
      NodesRepaired(db, NO_CACHES, old(nodes));
    }
  }
}
