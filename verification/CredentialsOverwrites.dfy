/**
 Credential overwrites: a table of field values per credential type that is flattened in place
 along the type hierarchy, with a memo of the types already resolved.

 The memo makes flattening incomplete: a type that was computed on behalf of a child but is not
 itself a key of the table is marked as resolved without being stored, so its next child sees
 nothing of it. `Get` walks the ancestors again and, with single inheritance, repairs this. The
 theorems below state what the two together compute, whatever the order of processing, and
 exactly when that is what the original data says.
 */
module CredentialsOverwrites {
  import opened Common
  import opened CredentialTypes

  type Field = string

  /** Scalar field values; an absent field reads as `Undefined`. */
  datatype Value = Null | Undefined | Text(text: string) | Number(number: int)

  type Fields = map<Field, Value>

  type Table = map<Name, Fields>

  /** The recognised types, and the `extends` list of those that declare one. */
  datatype Registry = Registry(recognized: set<Name>, inherits: Hierarchy) {
    /** No cycle lies ahead of the type, so every recursion from it ends. */
    ghost predicate Ends(t: Name) {
      AcyclicFrom(inherits, t)
    }

    ghost predicate AllEnd(types: seq<Name>) {
      forall t :: t in types ==> Ends(t)
    }

    ghost predicate KeysEnd(table: Table) {
      forall t :: t in table ==> Ends(t)
    }
  }

  function Entry(table: Table, t: Name): Option<Fields> {
    if t in table then Some(table[t]) else None
  }

  // ---------- Resolution with the memo ----------

  /** The memo after resolving `t`, and the fields found. Resolving never changes the table. */
  function Resolve(reg: Registry, table: Table, resolved: seq<Name>, t: Name): (seq<Name>, Option<Fields>)
    requires reg.Ends(t)
    decreases Rank(reg.inherits, t), |Parents(reg.inherits, t)| + 1
  {
    if t in resolved then (resolved, Entry(table, t))
    else if t !in reg.recognized then (resolved, None)
    else if t !in reg.inherits then (resolved + [t], Entry(table, t))
    else
      var (resolved', inherited) := ResolveParents(reg, table, resolved, t, reg.inherits[t], map[]);
      (resolved' + [t], Some(if t in table then inherited + table[t] else inherited))
  }

  function ResolveParents(reg: Registry, table: Table, resolved: seq<Name>, t: Name, ps: seq<Name>, acc: Fields)
      : (seq<Name>, Fields)
    requires reg.Ends(t)
    requires forall p :: p in ps ==> p in Parents(reg.inherits, t)
    decreases Rank(reg.inherits, t), |ps|
  {
    if ps == [] then (resolved, acc)
    else
      ParentIsAncestor(reg.inherits, t, ps[0]);
      RankDecreases(reg.inherits, t, ps[0]);
      var (resolved', found) := Resolve(reg, table, resolved, ps[0]);
      ResolveParents(reg, table, resolved', t, ps[1..], if found.Some? then acc + found.value else acc)
  }

  /** Flattening: every key is resolved in turn and a non-empty result replaces its entry. */
  function Flatten(reg: Registry, table: Table, resolved: seq<Name>, order: seq<Name>): (Table, seq<Name>)
    requires reg.AllEnd(order)
    decreases |order|
  {
    if order == [] then (table, resolved)
    else
      var (resolved', found) := Resolve(reg, table, resolved, order[0]);
      Flatten(reg, Store(table, order[0], found), resolved', order[1..])
  }

  function Store(table: Table, t: Name, found: Option<Fields>): Table {
    if found.Some? && found.value != map[] then table[t := found.value] else table
  }

  /** The entries of `types` merged so that the first one to mention a field wins. */
  function Merge(table: Table, types: seq<Name>): Option<Fields> {
    if types == [] then None
    else
      var rest := Merge(table, types[1..]);
      if types[0] !in table then rest
      else Some((if rest.Some? then rest.value else map[]) + table[types[0]])
  }

  // ---------- What the result should be ----------

  ghost function SelfAndAncestors(reg: Registry, t: Name): seq<Name>
    requires reg.Ends(t)
  {
    [t] + Chain(reg.inherits, t)
  }

  /** The value a field has in the first of `types` whose entry mentions it. */
  function Nearest(table: Table, types: seq<Name>, f: Field): Option<Value> {
    if types == [] then None
    else if types[0] in table && f in table[types[0]] then Some(table[types[0]][f])
    else Nearest(table, types[1..], f)
  }

  /** `fields` are what the nearest of `types` give, and nothing at all if none has an entry. */
  ghost predicate NearestFields(table: Table, types: seq<Name>, fields: Option<Fields>) {
    && (fields.Some? <==> exists t :: t in types && t in table)
    && forall f :: Nearest(table, types, f)
                == if fields.Some? && f in fields.value then Some(fields.value[f]) else None
  }

  // ---------- The invariant of flattening ----------

  /** Nearest values only: each field carries the value of the nearest entry of the original table. */
  ghost predicate Inherited(reg: Registry, original: Table, t: Name, fields: Fields)
    requires reg.Ends(t)
  {
    forall f :: f in fields ==> Nearest(original, SelfAndAncestors(reg, t), f) == Some(fields[f])
  }

  ghost predicate Own(original: Table, t: Name, fields: Fields) {
    t in original ==> original[t].Keys <= fields.Keys
  }

  /** Each stored entry holds its own original fields and only nearest values, whatever else was lost. */
  ghost predicate Sound(reg: Registry, original: Table, table: Table)
    requires reg.KeysEnd(original)
  {
    && table.Keys == original.Keys
    && forall t :: t in table ==> Own(original, t, table[t]) && Inherited(reg, original, t, table[t])
  }

  lemma OriginalIsSound(reg: Registry, original: Table)
    requires reg.KeysEnd(original)
    ensures Sound(reg, original, original)
  {
  }

  lemma {:induction false} ResolveIsSound(reg: Registry, original: Table, table: Table, resolved: seq<Name>, t: Name)
    requires reg.Ends(t) && SingleInheritance(reg.inherits) && reg.KeysEnd(original) && Sound(reg, original, table)
    ensures var found := Resolve(reg, table, resolved, t).1;
            found.Some? ==> Own(original, t, found.value) && Inherited(reg, original, t, found.value)
    decreases Rank(reg.inherits, t)
  {
    if t !in resolved && t in reg.inherits && Parents(reg.inherits, t) != [] {
      var p := Parents(reg.inherits, t)[0];
      assert Parents(reg.inherits, t) == [p];
      ParentIsAncestor(reg.inherits, t, p);
      RankDecreases(reg.inherits, t, p);
      ResolveIsSound(reg, original, table, resolved, p);
      var found := Resolve(reg, table, resolved, p).1;
      assert ResolveParents(reg, table, Resolve(reg, table, resolved, p).0, t, [p][1..], map[]).1 == map[];
      var acc: Fields := if found.Some? then map[] + found.value else map[];
      assert ResolveParents(reg, table, resolved, t, [p], map[]).1 == acc;
      assert SelfAndAncestors(reg, t)[1..] == SelfAndAncestors(reg, p);
    }
  }

  lemma {:induction false} FlattenIsSound(
    reg: Registry, original: Table, table: Table, resolved: seq<Name>, order: seq<Name>)
    requires SingleInheritance(reg.inherits) && reg.KeysEnd(original) && Sound(reg, original, table)
    requires forall t :: t in order ==> t in original
    ensures Sound(reg, original, Flatten(reg, table, resolved, order).0)
    decreases |order|
  {
    if order != [] {
      var (resolved', found) := Resolve(reg, table, resolved, order[0]);
      ResolveIsSound(reg, original, table, resolved, order[0]);
      FlattenIsSound(reg, original, Store(table, order[0], found), resolved', order[1..]);
    }
  }

  /** A second walk over a soundly flattened table finds what a walk over the original would. */
  lemma {:induction false} SoundTableSameNearest(reg: Registry, original: Table, table: Table, t: Name, f: Field)
    requires reg.Ends(t) && reg.KeysEnd(original) && Sound(reg, original, table)
    ensures Nearest(table, SelfAndAncestors(reg, t), f) == Nearest(original, SelfAndAncestors(reg, t), f)
    decreases Rank(reg.inherits, t)
  {
    var ps := Parents(reg.inherits, t);
    if ps != [] && !(t in table && f in table[t]) {
      ParentIsAncestor(reg.inherits, t, ps[0]);
      RankDecreases(reg.inherits, t, ps[0]);
      SoundTableSameNearest(reg, original, table, ps[0], f);
      assert SelfAndAncestors(reg, t)[1..] == SelfAndAncestors(reg, ps[0]);
    }
  }

  lemma {:induction false} MergeIsNearest(table: Table, types: seq<Name>)
    ensures NearestFields(table, types, Merge(table, types))
  {
    if types != [] {
      MergeIsNearest(table, types[1..]);
      if types[0] in table { assert types[0] in types; }
      assert forall t :: t in types <==> t == types[0] || t in types[1..];
    }
  }

  lemma {:induction false} NearestAppend(table: Table, a: seq<Name>, b: seq<Name>, f: Field)
    ensures Nearest(table, a + b, f)
         == if Nearest(table, a, f).Some? then Nearest(table, a, f) else Nearest(table, b, f)
  {
    if a == [] {
      assert a + b == b;
    } else {
      assert (a + b)[1..] == a[1..] + b;
      NearestAppend(table, a[1..], b, f);
    }
  }

  lemma {:induction false} NearestSeen(table: Table, types: seq<Name>, t: Name, f: Field)
    requires t in types && Nearest(table, types, f).None?
    ensures Nearest(table, [t], f).None?
  {
    if t != types[0] {
      NearestSeen(table, types[1..], t, f);
    }
  }

  /** Repeated ancestors do not matter to the merge. */
  lemma {:induction false} NearestOfFirstOccurrences(table: Table, types: seq<Name>, f: Field)
    ensures Nearest(table, types, f) == Nearest(table, FirstOccurrences(types), f)
  {
    if types != [] {
      var init, last := types[..|types| - 1], types[|types| - 1];
      assert types == init + [last];
      NearestAppend(table, init, [last], f);
      NearestOfFirstOccurrences(table, init, f);
      if last in init {
        if Nearest(table, init, f).None? { NearestSeen(table, init, last, f); }
      } else {
        NearestAppend(table, FirstOccurrences(init), [last], f);
      }
    }
  }

  lemma FirstOccurrencesSameMembers<T>(s: seq<T>)
    ensures forall x :: x in FirstOccurrences(s) <==> x in s
  {
    if s != [] {
      FirstOccurrencesSameMembers(s[..|s| - 1]);
      assert s == s[..|s| - 1] + [s[|s| - 1]];
    }
  }

  /** The merge over a walk with repetitions, read over a sound table, is the nearest value of the original. */
  lemma WalkFindsNearest(reg: Registry, original: Table, table: Table, name: Name, walk: seq<Name>)
    requires reg.Ends(name) && reg.KeysEnd(original) && Sound(reg, original, table)
    requires SingleInheritance(reg.inherits) && IsWalk(reg.inherits, name, walk)
    ensures NearestFields(original, SelfAndAncestors(reg, name), Merge(table, [name] + walk))
  {
    MergeIsNearest(table, [name] + walk);
    AcyclicAncestor(reg.inherits, name);
    PrependUnseen(name, walk);
    FirstOccurrencesSameMembers([name] + walk);
    assert FirstOccurrences([name] + walk) == SelfAndAncestors(reg, name);
    forall f
      ensures Nearest(table, [name] + walk, f) == Nearest(original, SelfAndAncestors(reg, name), f)
    {
      NearestOfFirstOccurrences(table, [name] + walk, f);
      SoundTableSameNearest(reg, original, table, name, f);
    }
  }

  // ---------- Main results on values ----------

  ghost predicate KeysOf(table: Table, order: seq<Name>) {
    forall t :: t in order <==> t in table
  }

  /**
   Whatever the order of the keys and whatever the memo dropped, a walk over the flattened table
   gives every field the value of the nearest self-or-ancestor in the original data.
   */
  lemma FlattenThenWalkIsNearest(reg: Registry, data: Table, order: seq<Name>, name: Name, walk: seq<Name>)
    requires SingleInheritance(reg.inherits) && KeysOf(data, order) && reg.KeysEnd(data)
    requires reg.Ends(name) && IsWalk(reg.inherits, name, walk)
    ensures NearestFields(data, SelfAndAncestors(reg, name), Merge(Flatten(reg, data, [], order).0, [name] + walk))
  {
    OriginalIsSound(reg, data);
    FlattenIsSound(reg, data, data, [], order);
    WalkFindsNearest(reg, data, Flatten(reg, data, [], order).0, name, walk);
  }

  /**
   With single inheritance not even the order matters: flattened again in any order, the table
   gives the same lookups.
   */
  lemma ReloadInAnyOrderPreservesLookup(
    reg: Registry, data: Table, order: seq<Name>, reloadOrder: seq<Name>, name: Name, walk: seq<Name>)
    requires SingleInheritance(reg.inherits) && KeysOf(data, order) && KeysOf(data, reloadOrder) && reg.KeysEnd(data)
    requires reg.Ends(name) && IsWalk(reg.inherits, name, walk)
    ensures var saved := Flatten(reg, data, [], order).0;
            var reloaded := Flatten(reg, saved, [], reloadOrder).0;
            Merge(reloaded, [name] + walk) == Merge(saved, [name] + walk)
  {
    var saved := Flatten(reg, data, [], order).0;
    OriginalIsSound(reg, data);
    FlattenIsSound(reg, data, data, [], order);
    FlattenThenWalkIsNearest(reg, data, order, name, walk);
    FlattenThenWalkIsNearest(reg, saved, reloadOrder, name, walk);
    var a, b := Merge(saved, [name] + walk), Merge(Flatten(reg, saved, [], reloadOrder).0, [name] + walk);
    forall f
      ensures a.Some? && b.Some? ==> (f in a.value <==> f in b.value) && (f in a.value ==> a.value[f] == b.value[f])
    {
      SoundTableSameNearest(reg, data, saved, name, f);
    }
    if a.Some? && b.Some? { assert a.value == b.value; }
  }

  // ---------- Fields on any hierarchy ----------

  ghost predicate SelfOrAncestor(reg: Registry, t: Name, u: Name) {
    u == t || u in Ancestors(reg.inherits, t)
  }

  ghost predicate Sets(reg: Registry, original: Table, t: Name, u: Name, f: Field) {
    SelfOrAncestor(reg, t, u) && u in original && f in original[u]
  }

  /** Some self-or-ancestor gives the field this value in the original data. */
  ghost predicate GivenBy(reg: Registry, original: Table, t: Name, f: Field, v: Value) {
    exists u :: Sets(reg, original, t, u, f) && original[u][f] == v
  }

  ghost predicate Given(reg: Registry, original: Table, t: Name, fields: Fields) {
    forall f :: f in fields ==> GivenBy(reg, original, t, f, fields[f])
  }

  ghost predicate KeepsOwn(original: Table, t: Name, fields: Fields) {
    t in original ==> forall f :: f in original[t] ==> f in fields && fields[f] == original[t][f]
  }

  ghost predicate EntryGrounded(reg: Registry, original: Table, t: Name, fields: Fields) {
    KeepsOwn(original, t, fields) && Given(reg, original, t, fields)
  }

  /** Each entry keeps its own fields, and every other field is given by some ancestor. */
  ghost predicate Grounded(reg: Registry, original: Table, table: Table) {
    && table.Keys == original.Keys
    && forall t :: t in table ==> EntryGrounded(reg, original, t, table[t])
  }

  lemma GivenToChild(reg: Registry, original: Table, t: Name, p: Name, fields: Fields)
    requires p in Parents(reg.inherits, t) && Given(reg, original, p, fields)
    ensures Given(reg, original, t, fields)
  {
    ParentIsAncestor(reg.inherits, t, p);
    AncestorsAreTransitive(reg.inherits, t, p);
    forall f | f in fields ensures GivenBy(reg, original, t, f, fields[f]) {
      var u :| Sets(reg, original, p, u, f) && original[u][f] == fields[f];
      assert Sets(reg, original, t, u, f);
    }
  }

  lemma GivenMerge(reg: Registry, original: Table, t: Name, a: Fields, b: Fields)
    requires Given(reg, original, t, a) && Given(reg, original, t, b)
    ensures Given(reg, original, t, a + b)
  {
  }

  lemma {:induction false} ResolveIsGrounded(reg: Registry, original: Table, table: Table, resolved: seq<Name>, t: Name)
    requires reg.Ends(t) && Grounded(reg, original, table)
    ensures var found := Resolve(reg, table, resolved, t).1;
            found.Some? ==> KeepsOwn(original, t, found.value) && Given(reg, original, t, found.value)
    decreases Rank(reg.inherits, t), |Parents(reg.inherits, t)| + 1
  {
    if t !in resolved && t in reg.recognized && t in reg.inherits {
      ResolveParentsIsGrounded(reg, original, table, resolved, t, reg.inherits[t], map[]);
    }
  }

  lemma {:induction false} ResolveParentsIsGrounded(
    reg: Registry, original: Table, table: Table, resolved: seq<Name>, t: Name, ps: seq<Name>, acc: Fields)
    requires reg.Ends(t) && Grounded(reg, original, table) && Given(reg, original, t, acc)
    requires forall p :: p in ps ==> p in Parents(reg.inherits, t)
    ensures Given(reg, original, t, ResolveParents(reg, table, resolved, t, ps, acc).1)
    decreases Rank(reg.inherits, t), |ps|
  {
    if ps != [] {
      ParentIsAncestor(reg.inherits, t, ps[0]);
      RankDecreases(reg.inherits, t, ps[0]);
      ResolveIsGrounded(reg, original, table, resolved, ps[0]);
      var (resolved', found) := Resolve(reg, table, resolved, ps[0]);
      var acc' := if found.Some? then acc + found.value else acc;
      if found.Some? {
        GivenToChild(reg, original, t, ps[0], found.value);
        GivenMerge(reg, original, t, acc, found.value);
      }
      assert forall p :: p in ps[1..] ==> p in ps;
      ResolveParentsIsGrounded(reg, original, table, resolved', t, ps[1..], acc');
    }
  }

  lemma StoreIsGrounded(reg: Registry, original: Table, table: Table, t: Name, found: Option<Fields>)
    requires Grounded(reg, original, table) && t in original
    requires found.Some? ==> EntryGrounded(reg, original, t, found.value)
    ensures Grounded(reg, original, Store(table, t, found))
  {
    var good := (u: Name, fields: Fields) => EntryGrounded(reg, original, u, fields);
    StoreKeeps(good, table, table.Keys, t, found);
  }

  /** What holds of some entries and of the one found holds after it is stored. */
  lemma StoreKeeps(good: (Name, Fields) -> bool, table: Table, types: set<Name>, t: Name, found: Option<Fields>)
    requires forall u :: u in types ==> u in table && good(u, table[u])
    requires found.Some? && found.value != map[] ==> good(t, found.value)
    ensures forall u :: u in types ==> u in Store(table, t, found) && good(u, Store(table, t, found)[u])
  {
  }

  lemma {:induction false} FlattenIsGrounded(
    reg: Registry, original: Table, table: Table, resolved: seq<Name>, order: seq<Name>)
    requires reg.AllEnd(order) && Grounded(reg, original, table)
    requires forall t :: t in order ==> t in original
    ensures Grounded(reg, original, Flatten(reg, table, resolved, order).0)
    decreases |order|
  {
    if order != [] {
      var (resolved', found) := Resolve(reg, table, resolved, order[0]);
      ResolveIsGrounded(reg, original, table, resolved, order[0]);
      StoreIsGrounded(reg, original, table, order[0], found);
      FlattenIsGrounded(reg, original, Store(table, order[0], found), resolved', order[1..]);
    }
  }

  lemma {:induction false} NearestIsGiven(table: Table, types: seq<Name>, f: Field)
    ensures match Nearest(table, types, f)
            case Some(v) => exists u :: u in types && u in table && f in table[u] && table[u][f] == v
            case None => forall u :: u in types && u in table ==> f !in table[u]
  {
    if types != [] { NearestIsGiven(table, types[1..], f); }
  }

  /** The types that set a field all agree on its value. */
  ghost predicate Undisputed(reg: Registry, data: Table, name: Name, f: Field) {
    forall u, v :: Sets(reg, data, name, u, f) && Sets(reg, data, name, v, f) ==> data[u][f] == data[v][f]
  }

  /** What a grounded table gives a field is given by the original data. */
  lemma FieldGiven(reg: Registry, data: Table, flat: Table, name: Name, types: seq<Name>, f: Field)
    requires Grounded(reg, data, flat) && forall u :: u in types <==> SelfOrAncestor(reg, name, u)
    ensures var after := Nearest(flat, types, f); after.Some? ==> GivenBy(reg, data, name, f, after.value)
  {
    NearestIsGiven(flat, types, f);
    if Nearest(flat, types, f).Some? {
      var u :| u in types && u in flat && f in flat[u] && flat[u][f] == Nearest(flat, types, f).value;
      assert Given(reg, data, u, flat[u]) && GivenBy(reg, data, u, f, flat[u][f]);
      var v :| Sets(reg, data, u, v, f) && data[v][f] == flat[u][f];
      if u != name { AncestorsAreTransitive(reg.inherits, name, u); }
      assert Sets(reg, data, name, v, f);
    }
  }

  lemma FieldNotLost(reg: Registry, data: Table, flat: Table, types: seq<Name>, f: Field)
    requires Grounded(reg, data, flat) && Nearest(data, types, f).Some?
    ensures Nearest(flat, types, f).Some?
  {
    NearestIsGiven(data, types, f);
    NearestIsGiven(flat, types, f);
    var u :| u in types && u in data && f in data[u] && data[u][f] == Nearest(data, types, f).value;
    assert KeepsOwn(data, u, flat[u]);
  }

  /** Both tables give the field or neither does, and the same if the original data is of one mind. */
  lemma FieldKept(reg: Registry, data: Table, flat: Table, name: Name, types: seq<Name>, f: Field)
    requires Grounded(reg, data, data) && Grounded(reg, data, flat)
    requires forall u :: u in types <==> SelfOrAncestor(reg, name, u)
    ensures var before, after := Nearest(data, types, f), Nearest(flat, types, f);
      && (before.Some? <==> after.Some?)
      && (after.Some? ==> GivenBy(reg, data, name, f, after.value))
      && (Undisputed(reg, data, name, f) ==> before == after)
  {
    FieldGiven(reg, data, data, name, types, f);
    FieldGiven(reg, data, flat, name, types, f);
    if Nearest(data, types, f).Some? { FieldNotLost(reg, data, flat, types, f); }
    NearestIsGiven(data, types, f);
  }

  lemma DataIsGrounded(reg: Registry, data: Table)
    ensures Grounded(reg, data, data)
  {
    forall t, f | t in data && f in data[t] ensures GivenBy(reg, data, t, f, data[t][f]) {
      assert Sets(reg, data, t, t, f);
    }
  }

  /**
   On every hierarchy without cycles, flattening in any order neither loses nor invents a field: a
   lookup finds the same fields as before, each with a value that the original data gives it at
   some self-or-ancestor, with the type's own value if it has one, and with the same value as
   before if the types that set the field agree.
   */
  lemma FlattenKeepsEveryField(reg: Registry, data: Table, order: seq<Name>, name: Name, walk: seq<Name>)
    requires KeysOf(data, order) && reg.KeysEnd(data)
    requires reg.Ends(name) && IsWalk(reg.inherits, name, walk)
    ensures var before, after := Merge(data, [name] + walk), Merge(Flatten(reg, data, [], order).0, [name] + walk);
      (before.Some? <==> after.Some?)
      && (after.Some? ==> forall f :: SameField(reg, data, name, before.value, after.value, f))
  {
    var flat, types := Flatten(reg, data, [], order).0, [name] + walk;
    DataIsGrounded(reg, data);
    FlattenIsGrounded(reg, data, data, [], order);
    MergeIsNearest(data, types);
    MergeIsNearest(flat, types);
    assert forall u :: u in types <==> SelfOrAncestor(reg, name, u);
    var before, after := Merge(data, types), Merge(flat, types);
    if after.Some? {
      forall f ensures SameField(reg, data, name, before.value, after.value, f) {
        ReadKept(reg, data, flat, name, types, before.value, after.value, f);
      }
    }
  }

  /** The field is found in both or neither, with a given value, the own one or the undisputed one if there is such. */
  ghost predicate SameField(reg: Registry, data: Table, name: Name, before: Fields, after: Fields, f: Field) {
    && (f in before <==> f in after)
    && (f in after ==> GivenBy(reg, data, name, f, after[f]))
    && (f in after && Undisputed(reg, data, name, f) ==> before[f] == after[f])
    && (name in data && f in data[name] ==> f in after && after[f] == data[name][f])
  }

  ghost predicate Reads(table: Table, types: seq<Name>, fields: Fields) {
    forall f :: Nearest(table, types, f) == if f in fields then Some(fields[f]) else None
  }

  lemma ReadKept(
    reg: Registry, data: Table, flat: Table, name: Name, types: seq<Name>, before: Fields, after: Fields, f: Field)
    requires Grounded(reg, data, data) && Grounded(reg, data, flat)
    requires types != [] && types[0] == name && forall u :: u in types <==> SelfOrAncestor(reg, name, u)
    requires Reads(data, types, before) && Reads(flat, types, after)
    ensures SameField(reg, data, name, before, after, f)
  {
    FieldKept(reg, data, flat, name, types, f);
    assert Nearest(data, types, f) == if f in before then Some(before[f]) else None;
    assert Nearest(flat, types, f) == if f in after then Some(after[f]) else None;
    if name in data && f in data[name] {
      assert KeepsOwn(data, name, flat[name]);
      assert Nearest(flat, types, f) == Some(flat[name][f]);
    }
  }

  // ---------- Several parents ----------

  /** What the entry of a recognised type says itself survives its resolution. */
  lemma OwnFieldResolved(reg: Registry, table: Table, resolved: seq<Name>, t: Name, f: Field)
    requires reg.Ends(t) && t in reg.recognized && t in table && f in table[t]
    ensures var found := Resolve(reg, table, resolved, t).1;
      found.Some? && f in found.value && found.value[f] == table[t][f]
  {
  }

  /** Resolution lets the last parent that sets a field win. */
  lemma {:induction false} LastParentWins(
    reg: Registry, table: Table, resolved: seq<Name>, t: Name, ps: seq<Name>, acc: Fields, f: Field)
    requires reg.Ends(t) && ps != [] && forall p :: p in ps ==> p in Parents(reg.inherits, t)
    requires var last := ps[|ps| - 1]; last in reg.recognized && last in table && f in table[last]
    ensures var fields := ResolveParents(reg, table, resolved, t, ps, acc).1;
      f in fields && fields[f] == table[ps[|ps| - 1]][f]
    decreases |ps|
  {
    ParentIsAncestor(reg.inherits, t, ps[0]);
    RankDecreases(reg.inherits, t, ps[0]);
    var (resolved', found) := Resolve(reg, table, resolved, ps[0]);
    var acc' := if found.Some? then acc + found.value else acc;
    if |ps| == 1 {
      OwnFieldResolved(reg, table, resolved, ps[0], f);
      assert ResolveParents(reg, table, resolved', t, ps[1..], acc').1 == acc';
    } else {
      assert forall p :: p in ps[1..] ==> p in ps;
      LastParentWins(reg, table, resolved', t, ps[1..], acc', f);
    }
  }

  lemma {:induction false} FlattenKeepsOthers(
    reg: Registry, table: Table, resolved: seq<Name>, order: seq<Name>, t: Name)
    requires reg.AllEnd(order) && t !in order
    ensures Entry(Flatten(reg, table, resolved, order).0, t) == Entry(table, t)
    decreases |order|
  {
    if order != [] {
      var (resolved', found) := Resolve(reg, table, resolved, order[0]);
      FlattenKeepsOthers(reg, Store(table, order[0], found), resolved', order[1..], t);
    }
  }

  /** The lookup of a type gives the field this value. */
  ghost predicate Yields(table: Table, types: seq<Name>, f: Field, v: Value) {
    var fields := Merge(table, types);
    fields.Some? && f in fields.value && fields.value[f] == v
  }

  lemma NearestYields(table: Table, types: seq<Name>, f: Field, v: Value)
    requires Nearest(table, types, f) == Some(v)
    ensures Yields(table, types, f, v)
  {
    MergeIsNearest(table, types);
  }

  /**
   Wherever a type has two parents, a table of three entries shows that flattening changes lookups:
   the type itself sets nothing, and its lookup gave the first parent's value but now gives the last's.
   */
  lemma FlatteningLetsLastParentWin(reg: Registry, t: Name, f: Field) returns (data: Table, order: seq<Name>)
    requires reg.Ends(t) && t in reg.recognized && |Parents(reg.inherits, t)| >= 2
    requires var ps := Parents(reg.inherits, t); ps[0] != ps[|ps| - 1] && ps[|ps| - 1] in reg.recognized
    ensures KeysOf(data, order) && reg.KeysEnd(data)
    ensures forall walk :: IsWalk(reg.inherits, t, walk) ==>
      && Yields(data, [t] + walk, f, Number(1))
      && Yields(Flatten(reg, data, [], order).0, [t] + walk, f, Number(2))
  {
    var ps := Parents(reg.inherits, t);
    var p, q := ps[0], ps[|ps| - 1];
    ParentEnds(reg, t, p);
    ParentEnds(reg, t, q);
    data := map[t := map[], p := map[f := Number(1)], q := map[f := Number(2)]];
    order := [t, p, q];
    LastParentWins(reg, data, [], t, ps, map[], f);
    var (resolved', found) := Resolve(reg, data, [], t);
    assert found.Some? && found.value[f] == Number(2);
    assert order[0] == t && order[1..] == [p, q];
    FlattenKeepsOthers(reg, Store(data, t, found), resolved', order[1..], t);
    var flat := Flatten(reg, data, [], order).0;
    assert flat[t] == found.value;
    forall walk | IsWalk(reg.inherits, t, walk)
      ensures Yields(data, [t] + walk, f, Number(1)) && Yields(flat, [t] + walk, f, Number(2))
    {
      assert ([t] + walk)[1..] == walk && walk[0] == FirstVisits(reg.inherits, t)[0] == p;
      assert Nearest(data, walk, f) == Some(Number(1));
      NearestYields(data, [t] + walk, f, Number(1));
      NearestYields(flat, [t] + walk, f, Number(2));
    }
  }

  lemma ParentEnds(reg: Registry, t: Name, p: Name)
    requires reg.Ends(t) && p in Parents(reg.inherits, t)
    ensures reg.Ends(p) && p != t && p in Ancestors(reg.inherits, t)
  {
    ParentIsAncestor(reg.inherits, t, p);
    RankDecreases(reg.inherits, t, p);
  }

  /** The type and its parents are recognised, and no parent is named twice. */
  ghost predicate ProperParents(reg: Registry, t: Name) {
    var ps := Parents(reg.inherits, t);
    Distinct(ps) && (ps != [] ==> t in reg.recognized) && forall p :: p in ps ==> p in reg.recognized
  }

  ghost predicate WellFormed(reg: Registry) {
    forall t :: reg.Ends(t) && ProperParents(reg, t)
  }

  ghost predicate Distinct(s: seq<Name>) {
    forall i, j :: 0 <= i < j < |s| ==> s[i] != s[j]
  }

  /** A lookup of `name` after `data` was flattened in the given order of its keys. */
  ghost predicate IsLookup(reg: Registry, data: Table, order: seq<Name>, name: Name, walk: seq<Name>) {
    KeysOf(data, order) && reg.KeysEnd(data) && reg.Ends(name) && IsWalk(reg.inherits, name, walk)
  }

  ghost predicate LookupKept(reg: Registry, data: Table, order: seq<Name>, name: Name, walk: seq<Name>)
    requires reg.AllEnd(order)
  {
    Merge(Flatten(reg, data, [], order).0, [name] + walk) == Merge(data, [name] + walk)
  }

  lemma SameNearestFields(table: Table, types: seq<Name>, a: Option<Fields>, b: Option<Fields>)
    requires NearestFields(table, types, a) && NearestFields(table, types, b)
    ensures a == b
  {
    if a.Some? && b.Some? {
      forall f ensures (f in a.value <==> f in b.value) && (f in a.value ==> a.value[f] == b.value[f]) {
        assert Nearest(table, types, f) == if f in a.value then Some(a.value[f]) else None;
      }
      assert a.value == b.value;
    }
  }

  lemma SingleInheritanceKeepsLookup(reg: Registry, data: Table, order: seq<Name>, name: Name, walk: seq<Name>)
    requires SingleInheritance(reg.inherits) && KeysOf(data, order) && reg.KeysEnd(data)
    requires reg.Ends(name) && IsWalk(reg.inherits, name, walk)
    ensures LookupKept(reg, data, order, name, walk)
  {
    FlattenThenWalkIsNearest(reg, data, order, name, walk);
    OriginalIsSound(reg, data);
    WalkFindsNearest(reg, data, data, name, walk);
    SameNearestFields(data, SelfAndAncestors(reg, name),
                      Merge(Flatten(reg, data, [], order).0, [name] + walk), Merge(data, [name] + walk));
  }

  lemma Enumerate(s: set<Name>) returns (listed: seq<Name>)
    ensures forall x :: x in listed <==> x in s
  {
    if s == {} {
      listed := [];
    } else {
      var x :| x in s;
      var rest := Enumerate(s - {x});
      listed := [x] + rest;
    }
  }

  /** Where the order of first occurrences is not at stake, a walk exists. */
  lemma SomeWalk(reg: Registry, t: Name) returns (walk: seq<Name>)
    requires reg.Ends(t) && !SingleInheritance(reg.inherits)
    ensures IsWalk(reg.inherits, t, walk)
  {
    var rest := Enumerate(Ancestors(reg.inherits, t));
    walk := FirstVisits(reg.inherits, t) + rest;
    forall u | u in FirstVisits(reg.inherits, t) ensures u in Ancestors(reg.inherits, t) {
      var p := Parents(reg.inherits, t)[0];
      ParentsAreAncestors(reg.inherits, t);
      ParentsAreAncestors(reg.inherits, p);
      AncestorsAreTransitive(reg.inherits, t, p);
    }
  }

  /**
   Flattening changes no lookup, for all data, all key orders and all types, if and only if no type
   has more than one parent.
   */
  lemma FlatteningKeepsLookupsIffSingleInheritance(reg: Registry)
    requires WellFormed(reg)
    ensures SingleInheritance(reg.inherits) <==>
      forall data, order, name, walk :: IsLookup(reg, data, order, name, walk) ==>
        LookupKept(reg, data, order, name, walk)
  {
    if SingleInheritance(reg.inherits) {
      forall data, order, name, walk | IsLookup(reg, data, order, name, walk)
        ensures LookupKept(reg, data, order, name, walk)
      {
        SingleInheritanceKeepsLookup(reg, data, order, name, walk);
      }
    } else {
      var t :| |Parents(reg.inherits, t)| > 1;
      var ps := Parents(reg.inherits, t);
      assert reg.Ends(t) && ProperParents(reg, t);
      var data, order := FlatteningLetsLastParentWin(reg, t, "field");
      var walk := SomeWalk(reg, t);
      assert Yields(data, [t] + walk, "field", Number(1));
      assert IsLookup(reg, data, order, t, walk) && !LookupKept(reg, data, order, t, walk);
    }
  }

  // ---------- Saving and reloading ----------

  lemma {:induction false} MemoHoldsAncestors(reg: Registry, table: Table, resolved: seq<Name>, t: Name)
    requires reg.Ends(t)
    ensures forall u :: u in Resolve(reg, table, resolved, t).0 ==> u in resolved || SelfOrAncestor(reg, t, u)
    decreases Rank(reg.inherits, t), |Parents(reg.inherits, t)| + 1
  {
    if t !in resolved && t in reg.recognized && t in reg.inherits {
      ParentsMemoHoldsAncestors(reg, table, resolved, t, reg.inherits[t], map[]);
    }
  }

  lemma {:induction false} ParentsMemoHoldsAncestors(
    reg: Registry, table: Table, resolved: seq<Name>, t: Name, ps: seq<Name>, acc: Fields)
    requires reg.Ends(t) && forall p :: p in ps ==> p in Parents(reg.inherits, t)
    ensures forall u :: u in ResolveParents(reg, table, resolved, t, ps, acc).0 ==>
              u in resolved || u in Ancestors(reg.inherits, t)
    decreases Rank(reg.inherits, t), |ps|
  {
    if ps != [] {
      ParentEnds(reg, t, ps[0]);
      RankDecreases(reg.inherits, t, ps[0]);
      AncestorsAreTransitive(reg.inherits, t, ps[0]);
      MemoHoldsAncestors(reg, table, resolved, ps[0]);
      var (resolved', found) := Resolve(reg, table, resolved, ps[0]);
      assert forall p :: p in ps[1..] ==> p in ps;
      ParentsMemoHoldsAncestors(reg, table, resolved', t, ps[1..], if found.Some? then acc + found.value else acc);
    }
  }

  lemma {:induction false} MemoGrows(reg: Registry, table: Table, resolved: seq<Name>, t: Name)
    requires reg.Ends(t)
    ensures resolved <= Resolve(reg, table, resolved, t).0
    decreases Rank(reg.inherits, t), |Parents(reg.inherits, t)| + 1
  {
    if t !in resolved && t in reg.recognized && t in reg.inherits {
      ParentsMemoGrows(reg, table, resolved, t, reg.inherits[t], map[]);
    }
  }

  lemma {:induction false} ParentsMemoGrows(
    reg: Registry, table: Table, resolved: seq<Name>, t: Name, ps: seq<Name>, acc: Fields)
    requires reg.Ends(t) && forall p :: p in ps ==> p in Parents(reg.inherits, t)
    ensures resolved <= ResolveParents(reg, table, resolved, t, ps, acc).0
    decreases Rank(reg.inherits, t), |ps|
  {
    if ps != [] {
      ParentEnds(reg, t, ps[0]);
      RankDecreases(reg.inherits, t, ps[0]);
      MemoGrows(reg, table, resolved, ps[0]);
      var (resolved', found) := Resolve(reg, table, resolved, ps[0]);
      assert forall p :: p in ps[1..] ==> p in ps;
      ParentsMemoGrows(reg, table, resolved', t, ps[1..], if found.Some? then acc + found.value else acc);
    }
  }

  /** An entry whose type is in the memo is never changed by a later key. */
  lemma {:induction false} MemoEntryKept(reg: Registry, table: Table, resolved: seq<Name>, order: seq<Name>, u: Name)
    requires reg.AllEnd(order) && u in resolved
    ensures Entry(Flatten(reg, table, resolved, order).0, u) == Entry(table, u)
    decreases |order|
  {
    if order != [] {
      MemoGrows(reg, table, resolved, order[0]);
      var (resolved', found) := Resolve(reg, table, resolved, order[0]);
      MemoEntryKept(reg, Store(table, order[0], found), resolved', order[1..], u);
    }
  }

  ghost predicate AgreeOn(a: Table, b: Table, memo: seq<Name>) {
    forall u :: u in memo ==> Entry(a, u) == Entry(b, u)
  }

  /** A resolution reads nothing but what its memo holds afterwards. */
  lemma {:induction false} ResolvesAlike(reg: Registry, a: Table, b: Table, resolved: seq<Name>, t: Name)
    requires reg.Ends(t) && AgreeOn(a, b, Resolve(reg, a, resolved, t).0)
    ensures Resolve(reg, a, resolved, t) == Resolve(reg, b, resolved, t)
    decreases Rank(reg.inherits, t), |Parents(reg.inherits, t)| + 1
  {
    if t !in resolved && t in reg.recognized {
      assert t in Resolve(reg, a, resolved, t).0;
      assert Entry(a, t) == Entry(b, t);
      if t in reg.inherits {
        ParentsResolveAlike(reg, a, b, resolved, t, reg.inherits[t], map[]);
      }
    }
  }

  lemma {:induction false} ParentsResolveAlike(
    reg: Registry, a: Table, b: Table, resolved: seq<Name>, t: Name, ps: seq<Name>, acc: Fields)
    requires reg.Ends(t) && forall p :: p in ps ==> p in Parents(reg.inherits, t)
    requires AgreeOn(a, b, ResolveParents(reg, a, resolved, t, ps, acc).0)
    ensures ResolveParents(reg, a, resolved, t, ps, acc) == ResolveParents(reg, b, resolved, t, ps, acc)
    decreases Rank(reg.inherits, t), |ps|
  {
    if ps != [] {
      ParentEnds(reg, t, ps[0]);
      RankDecreases(reg.inherits, t, ps[0]);
      var (resolved', found) := Resolve(reg, a, resolved, ps[0]);
      var acc' := if found.Some? then acc + found.value else acc;
      assert forall p :: p in ps[1..] ==> p in ps;
      ParentsMemoGrows(reg, a, resolved', t, ps[1..], acc');
      ResolvesAlike(reg, a, b, resolved, ps[0]);
      ParentsResolveAlike(reg, a, b, resolved', t, ps[1..], acc');
    }
  }

  /** Resolved again over a table that holds what was stored, a key finds the same and is left as it is. */
  lemma ResolveAgain(reg: Registry, table: Table, flat: Table, resolved: seq<Name>, k: Name)
    requires reg.Ends(k)
    requires var (resolved', found) := Resolve(reg, table, resolved, k);
      AgreeOn(Store(table, k, found), flat, resolved')
    ensures var (resolved', found) := Resolve(reg, table, resolved, k);
      Resolve(reg, flat, resolved, k) == (resolved', found) && Store(flat, k, found) == flat
  {
    var (resolved', found) := Resolve(reg, table, resolved, k);
    if k !in resolved && k in reg.recognized && k in reg.inherits {
      var (memo, inherited) := ResolveParents(reg, table, resolved, k, reg.inherits[k], map[]);
      ParentsMemoHoldsAncestors(reg, table, resolved, k, reg.inherits[k], map[]);
      AcyclicAncestor(reg.inherits, k);
      forall u | u in memo ensures Entry(table, u) == Entry(flat, u) {
        assert u in resolved' && u != k;
      }
      ParentsResolveAlike(reg, table, flat, resolved, k, reg.inherits[k], map[]);
      InheritAgain(inherited, Entry(table, k), Entry(flat, k));
      assert k in resolved' && Entry(flat, k) == Entry(Store(table, k, found), k);
    } else if k in reg.recognized || k in resolved {
      assert k in resolved' && Entry(flat, k) == Entry(Store(table, k, found), k);
    }
  }

  /** What a type inherits, it does not inherit a second time. */
  lemma InheritAgain(inherited: Fields, entry: Option<Fields>, stored: Option<Fields>)
    requires var found := if entry.Some? then inherited + entry.value else inherited;
      stored == if found != map[] then Some(found) else entry
    ensures var found := if entry.Some? then inherited + entry.value else inherited;
      found == if stored.Some? then inherited + stored.value else inherited
  {
  }

  /** Flattening is idempotent, memo and all, on every hierarchy on which it ends. */
  lemma {:induction false} FlattenAgain(reg: Registry, table: Table, resolved: seq<Name>, order: seq<Name>)
    requires reg.AllEnd(order)
    ensures var (flat, memo) := Flatten(reg, table, resolved, order);
      Flatten(reg, flat, resolved, order) == (flat, memo)
    decreases |order|
  {
    if order != [] {
      var k := order[0];
      var (resolved', found) := Resolve(reg, table, resolved, k);
      var stored := Store(table, k, found);
      var (flat, memo) := Flatten(reg, stored, resolved', order[1..]);
      forall u | u in resolved' ensures Entry(stored, u) == Entry(flat, u) {
        MemoEntryKept(reg, stored, resolved', order[1..], u);
      }
      ResolveAgain(reg, table, flat, resolved, k);
      FlattenAgain(reg, stored, resolved', order[1..]);
    }
  }

  /**
   What is saved is the table already flattened, and the text it is saved as keeps the order of its
   keys. Loading and flattening it again gives the same table and memo, hence the same lookups, on
   every hierarchy without cycles ahead of a key, however many parents a type has.
   */
  lemma SaveAndReloadChangesNothing(reg: Registry, data: Table, order: seq<Name>)
    requires KeysOf(data, order) && reg.KeysEnd(data)
    ensures var saved := Flatten(reg, data, [], order).0;
      && KeysOf(saved, order)
      && Flatten(reg, saved, [], order) == Flatten(reg, data, [], order)
  {
    DataIsGrounded(reg, data);
    FlattenIsGrounded(reg, data, data, [], order);
    FlattenAgain(reg, data, [], order);
  }

  // ---------- What flattening is for ----------

  /** The fields are all that some self-or-ancestor sets. */
  ghost predicate Complete(reg: Registry, original: Table, t: Name, fields: Fields) {
    forall u, f :: Sets(reg, original, t, u, f) ==> f in fields
  }

  lemma {:induction false} ParentsFromMemo(
    reg: Registry, table: Table, resolved: seq<Name>, t: Name, ps: seq<Name>, acc: Fields)
    requires reg.Ends(t) && forall p :: p in ps ==> p in Parents(reg.inherits, t)
    requires forall p :: p in ps ==> p in resolved && p in table
    ensures var (memo, fields) := ResolveParents(reg, table, resolved, t, ps, acc);
      memo == resolved && acc.Keys <= fields.Keys && forall p :: p in ps ==> table[p].Keys <= fields.Keys
    decreases |ps|
  {
    if ps != [] {
      ParentEnds(reg, t, ps[0]);
      RankDecreases(reg.inherits, t, ps[0]);
      assert Resolve(reg, table, resolved, ps[0]) == (resolved, Some(table[ps[0]]));
      assert forall p :: p in ps[1..] ==> p in ps;
      ParentsFromMemo(reg, table, resolved, t, ps[1..], acc + table[ps[0]]);
      assert forall p :: p in ps ==> p == ps[0] || p in ps[1..];
    }
  }

  /** A key whose parents are done gets every field of its ancestors. */
  lemma KeyInherits(reg: Registry, original: Table, table: Table, resolved: seq<Name>, t: Name)
    requires reg.Ends(t) && t in reg.recognized && t !in resolved && Grounded(reg, original, table) && t in table
    requires Done(reg, original, table, resolved) && forall p :: p in Parents(reg.inherits, t) ==> p in resolved
    ensures var (memo, found) := Resolve(reg, table, resolved, t);
      memo == resolved + [t] && found.Some? && Complete(reg, original, t, found.value)
  {
    var ps := Parents(reg.inherits, t);
    if t in reg.inherits { ParentsFromMemo(reg, table, resolved, t, ps, map[]); }
    var found := Resolve(reg, table, resolved, t).1;
    forall u, f | Sets(reg, original, t, u, f) ensures f in found.value {
      assert KeepsOwn(original, t, table[t]);
      if u != t {
        var p := AncestorIsViaParent(reg.inherits, t, u);
        assert Sets(reg, original, p, u, f);
      }
    }
  }

  /** Every key but the first ones comes after all its parents, which are keys too. */
  ghost predicate ParentsFirst(reg: Registry, done: seq<Name>, order: seq<Name>) {
    forall k :: 0 <= k < |order| ==> forall p :: p in Parents(reg.inherits, order[k]) ==> p in done + order[..k]
  }

  lemma NextParentsFirst(reg: Registry, done: seq<Name>, order: seq<Name>)
    requires order != [] && ParentsFirst(reg, done, order)
    ensures ParentsFirst(reg, done + [order[0]], order[1..])
    ensures order[0] in done ==> ParentsFirst(reg, done, order[1..])
  {
    forall i | 0 <= i < |order| - 1
      ensures forall p :: p in Parents(reg.inherits, order[1..][i]) ==> p in done + [order[0]] + order[1..][..i]
    {
      assert order[1..][i] == order[i + 1] && done + order[..i + 1] == done + [order[0]] + order[1..][..i];
    }
  }

  /** All of these are in the table with every field of their ancestors. */
  ghost predicate Done(reg: Registry, original: Table, table: Table, types: seq<Name>) {
    forall t :: t in types ==> t in table && Complete(reg, original, t, table[t])
  }

  lemma StoredDone(reg: Registry, original: Table, table: Table, types: seq<Name>, k: Name, found: Fields)
    requires Done(reg, original, table, types) && k in table && Complete(reg, original, k, found)
    ensures Done(reg, original, Store(table, k, Some(found)), types + [k])
  {
    var good := (u: Name, fields: Fields) => Complete(reg, original, u, fields);
    StoreKeeps(good, table, (set u | u in types), k, Some(found));
    if found == map[] { AnythingComplete(reg, original, k, table[k]); }
  }

  lemma AnythingComplete(reg: Registry, original: Table, t: Name, fields: Fields)
    requires Complete(reg, original, t, map[])
    ensures Complete(reg, original, t, fields)
  {
  }

  lemma KeyDone(reg: Registry, original: Table, table: Table, resolved: seq<Name>, k: Name)
    requires reg.Ends(k) && k in reg.recognized && k in original && Grounded(reg, original, table)
    requires Done(reg, original, table, resolved)
    requires forall p :: p in Parents(reg.inherits, k) ==> p in resolved
    ensures var (resolved', found) := Resolve(reg, table, resolved, k);
      && Done(reg, original, Store(table, k, found), resolved')
      && resolved' == if k in resolved then resolved else resolved + [k]
  {
    if k in resolved {
      SeenKeyStays(reg, table, resolved, k);
    } else {
      KeyInherits(reg, original, table, resolved, k);
      StoredDone(reg, original, table, resolved, k, Resolve(reg, table, resolved, k).1.value);
    }
  }

  lemma SeenKeyStays(reg: Registry, table: Table, resolved: seq<Name>, k: Name)
    requires reg.Ends(k) && k in resolved
    ensures var (resolved', found) := Resolve(reg, table, resolved, k);
      resolved' == resolved && Store(table, k, found) == table
  {
  }

  /** What holds while the keys are processed: `done` are finished, and the rest come after their parents. */
  ghost predicate Progress(reg: Registry, original: Table, table: Table, done: seq<Name>, order: seq<Name>) {
    && Grounded(reg, original, table) && Done(reg, original, table, done) && ParentsFirst(reg, done, order)
    && forall t :: t in order ==> t in original && t in reg.recognized
  }

  lemma KeyProgress(reg: Registry, original: Table, table: Table, done: seq<Name>, order: seq<Name>)
    requires reg.AllEnd(order) && order != [] && Progress(reg, original, table, done, order)
    ensures var (done', found) := Resolve(reg, table, done, order[0]);
      && Progress(reg, original, Store(table, order[0], found), done', order[1..])
      && done' == if order[0] in done then done else done + [order[0]]
  {
    var k := order[0];
    var found := Resolve(reg, table, done, k).1;
    assert done + order[..0] == done;
    ResolveIsGrounded(reg, original, table, done, k);
    StoreIsGrounded(reg, original, table, k, found);
    KeyDone(reg, original, table, done, k);
    NextParentsFirst(reg, done, order);
  }

  lemma {:induction false} FlattenParentsFirst(
    reg: Registry, original: Table, table: Table, done: seq<Name>, order: seq<Name>, t: Name)
    requires reg.AllEnd(order) && Progress(reg, original, table, done, order) && (t in done || t in order)
    ensures var flat := Flatten(reg, table, done, order).0; t in flat && Complete(reg, original, t, flat[t])
    decreases |order|
  {
    if order != [] {
      var (done', found) := Resolve(reg, table, done, order[0]);
      KeyProgress(reg, original, table, done, order);
      FlattenParentsFirst(reg, original, Store(table, order[0], found), done', order[1..], t);
    }
  }

  /**
   If every key comes after its parents, the flattened entry of a type has every field that the
   type or any of its ancestors sets, so no walk is needed to find them.
   */
  lemma ParentsFirstInheritEverything(reg: Registry, data: Table, order: seq<Name>, t: Name, u: Name)
    requires KeysOf(data, order) && reg.KeysEnd(data) && ParentsFirst(reg, [], order)
    requires forall k :: k in data ==> k in reg.recognized
    requires t in data && u in data && (u == t || u in Ancestors(reg.inherits, t))
    ensures var flat := Flatten(reg, data, [], order).0;
      t in flat && forall f :: f in data[u] ==> f in flat[t]
  {
    DataIsGrounded(reg, data);
    FlattenParentsFirst(reg, data, data, [], order, t);
    forall f | f in data[u] ensures f in Flatten(reg, data, [], order).0[t] {
      assert Sets(reg, data, t, u, f);
    }
  }

  // ---------- What flattening leaves out ----------

  /** Two types have the same single parent, which itself has parents. */
  ghost predicate Siblings(reg: Registry, r: Name, s: Name, t: Name) {
    && r != s && reg.Ends(r) && reg.Ends(s) && {r, s, t} <= reg.recognized
    && Parents(reg.inherits, r) == [t] && Parents(reg.inherits, s) == [t]
    && Parents(reg.inherits, t) != [] && LastParent(reg, t) in reg.recognized
  }

  function LastParent(reg: Registry, t: Name): Name
    requires Parents(reg.inherits, t) != []
  {
    Parents(reg.inherits, t)[|Parents(reg.inherits, t)| - 1]
  }

  lemma SiblingsApart(reg: Registry, r: Name, s: Name, t: Name)
    requires Siblings(reg, r, s, t)
    ensures reg.Ends(t) && reg.Ends(LastParent(reg, t)) && LastParent(reg, t) !in {r, s, t} && t != r && t != s
    ensures s !in Ancestors(reg.inherits, r)
  {
    ParentEnds(reg, r, t);
    ParentEnds(reg, s, t);
    ParentEnds(reg, t, LastParent(reg, t));
    AncestorsAreTransitive(reg.inherits, r, t);
    AncestorsAreTransitive(reg.inherits, s, t);
    AcyclicAncestor(reg.inherits, r);
    AcyclicAncestor(reg.inherits, s);
    if s in Ancestors(reg.inherits, r) {
      var p := AncestorIsViaParent(reg.inherits, r, s);
    }
  }

  /** The first of the siblings to be resolved inherits, and leaves `t` in the memo. */
  lemma FirstSiblingInherits(reg: Registry, table: Table, r: Name, s: Name, t: Name, f: Field)
    requires Siblings(reg, r, s, t) && t !in table && r in table && f !in table[r]
    requires LastParent(reg, t) in table && f in table[LastParent(reg, t)]
    ensures var (resolved, found) := Resolve(reg, table, [], r);
      && t in resolved && s !in resolved
      && found.Some? && f in found.value && found.value[f] == table[LastParent(reg, t)][f]
  {
    SiblingsApart(reg, r, s, t);
    MemoHoldsAncestors(reg, table, [], r);
    LastParentWins(reg, table, [], t, Parents(reg.inherits, t), map[], f);
    var (memo, found) := Resolve(reg, table, [], t);
    assert t in memo && found.Some? && found.value[f] == table[LastParent(reg, t)][f];
    assert [t][0] == t && [t][1..] == [];
    assert ResolveParents(reg, table, memo, r, [], map[] + found.value) == (memo, map[] + found.value);
    assert ResolveParents(reg, table, [], r, [t], map[]) == (memo, map[] + found.value);
  }

  /** The second one finds `t` in the memo without an entry, and inherits nothing. */
  lemma SecondSiblingInheritsNothing(reg: Registry, table: Table, resolved: seq<Name>, r: Name, s: Name, t: Name)
    requires Siblings(reg, r, s, t) && t !in table && s in table && table[s] == map[]
    requires t in resolved && s !in resolved
    ensures Resolve(reg, table, resolved, s).1 == Some(map[])
  {
    ParentEnds(reg, s, t);
    RankDecreases(reg.inherits, s, t);
    assert [t][0] == t && [t][1..] == [];
    assert Resolve(reg, table, resolved, t) == (resolved, None);
    assert ResolveParents(reg, table, resolved, s, [], map[]) == (resolved, map[]);
    assert ResolveParents(reg, table, resolved, s, [t], map[]) == (resolved, map[]);
  }

  /**
   The memo drops what a type inherits if that type is not a key: of two types with such a parent,
   the one that comes first gets the inherited field into its entry and the second does not.
   */
  lemma SecondSiblingIsNotFlattened(reg: Registry, r: Name, s: Name, t: Name, f: Field, v: Value)
    returns (data: Table, order: seq<Name>)
    requires Siblings(reg, r, s, t)
    ensures KeysOf(data, order) && reg.KeysEnd(data)
    ensures var flat := Flatten(reg, data, [], order).0;
      r in flat && f in flat[r] && flat[r][f] == v && s in flat && flat[s] == map[]
  {
    var q := LastParent(reg, t);
    SiblingsApart(reg, r, s, t);
    data, order := map[r := map[], s := map[], q := map[f := v]], [r, s, q];
    FirstSiblingInherits(reg, data, r, s, t, f);
    var (resolved, found) := Resolve(reg, data, [], r);
    var table := Store(data, r, found);
    SecondSiblingInheritsNothing(reg, table, resolved, r, s, t);
    var (resolved', none) := Resolve(reg, table, resolved, s);
    assert order[1..] == [s, q] && [s, q][1..] == [q] && order[0] == r && [s, q][0] == s;
    FlattenKeepsOthers(reg, table, resolved, [s, q], r);
    FlattenKeepsOthers(reg, table, resolved', [q], s);
    assert Flatten(reg, data, [], order) == Flatten(reg, table, resolved, [s, q]);
    assert Flatten(reg, table, resolved, [s, q]) == Flatten(reg, table, resolved', [q]);
  }

  /** A type that is not recognised gives its children nothing, and never enters the memo. */
  lemma {:induction false} MemoIsRecognized(reg: Registry, table: Table, resolved: seq<Name>, t: Name)
    requires reg.Ends(t)
    ensures forall u :: u in Resolve(reg, table, resolved, t).0 ==> u in resolved || u in reg.recognized
    decreases Rank(reg.inherits, t), |Parents(reg.inherits, t)| + 1
  {
    if t !in resolved && t in reg.recognized && t in reg.inherits {
      ParentsMemoIsRecognized(reg, table, resolved, t, reg.inherits[t], map[]);
    }
  }

  lemma {:induction false} ParentsMemoIsRecognized(
    reg: Registry, table: Table, resolved: seq<Name>, t: Name, ps: seq<Name>, acc: Fields)
    requires reg.Ends(t) && forall p :: p in ps ==> p in Parents(reg.inherits, t)
    ensures forall u :: u in ResolveParents(reg, table, resolved, t, ps, acc).0 ==> u in resolved || u in reg.recognized
    decreases Rank(reg.inherits, t), |ps|
  {
    if ps != [] {
      ParentEnds(reg, t, ps[0]);
      RankDecreases(reg.inherits, t, ps[0]);
      MemoIsRecognized(reg, table, resolved, ps[0]);
      var (resolved', found) := Resolve(reg, table, resolved, ps[0]);
      assert forall p :: p in ps[1..] ==> p in ps;
      ParentsMemoIsRecognized(reg, table, resolved', t, ps[1..], if found.Some? then acc + found.value else acc);
    }
  }

  /** If none of its parents is recognised, flattening leaves the entry of a type as it was, in any order. */
  lemma {:induction false} UnknownParentsGiveNothing(
    reg: Registry, table: Table, resolved: seq<Name>, order: seq<Name>, t: Name)
    requires reg.AllEnd(order) && t in table
    requires forall p :: p in Parents(reg.inherits, t) ==> p !in reg.recognized && p !in resolved
    ensures Entry(Flatten(reg, table, resolved, order).0, t) == Some(table[t])
    decreases |order|
  {
    if order != [] {
      var k := order[0];
      MemoIsRecognized(reg, table, resolved, k);
      var (resolved', found) := Resolve(reg, table, resolved, k);
      if k == t && t in reg.inherits && t !in resolved {
        NothingFromUnknown(reg, table, resolved, t, reg.inherits[t], map[]);
        assert map[] + table[t] == table[t];
      }
      UnknownParentsGiveNothing(reg, Store(table, k, found), resolved', order[1..], t);
    }
  }

  lemma {:induction false} NothingFromUnknown(
    reg: Registry, table: Table, resolved: seq<Name>, t: Name, ps: seq<Name>, acc: Fields)
    requires reg.Ends(t) && forall p :: p in ps ==> p in Parents(reg.inherits, t)
    requires forall p :: p in ps ==> p !in reg.recognized && p !in resolved
    ensures ResolveParents(reg, table, resolved, t, ps, acc) == (resolved, acc)
    decreases |ps|
  {
    if ps != [] {
      ParentEnds(reg, t, ps[0]);
      RankDecreases(reg.inherits, t, ps[0]);
      assert forall p :: p in ps[1..] ==> p in ps;
      NothingFromUnknown(reg, table, resolved, t, ps[1..], acc);
    }
  }

  // ---------- The service ----------

  class Overwrites {
    const registry: Registry
    var overwriteData: Table
    var resolvedTypes: seq<Name>

    constructor (registry: Registry)
      ensures this.registry == registry && overwriteData == map[] && resolvedTypes == []
    {
      this.registry := registry;
      overwriteData, resolvedTypes := map[], [];
    }

    method GetOverwrites(t: Name) returns (found: Option<Fields>)
      requires registry.Ends(t)
      modifies this`resolvedTypes
      ensures (resolvedTypes, found) == Resolve(registry, overwriteData, old(resolvedTypes), t)
      decreases Rank(registry.inherits, t)
    {
      if t in resolvedTypes {
        return Entry(overwriteData, t);
      }
      if t !in registry.recognized {
        return None;
      }
      if t !in registry.inherits {
        resolvedTypes := resolvedTypes + [t];
        return Entry(overwriteData, t);
      }
      var ps := registry.inherits[t];
      var overwrites: Fields := map[];
      var i := 0;
      while i < |ps|
        invariant i <= |ps|
        invariant ResolveParents(registry, overwriteData, resolvedTypes, t, ps[i..], overwrites)
               == ResolveParents(registry, overwriteData, old(resolvedTypes), t, ps, map[])
      {
        ParentIsAncestor(registry.inherits, t, ps[i]);
        RankDecreases(registry.inherits, t, ps[i]);
        assert ps[i..][0] == ps[i] && ps[i..][1..] == ps[i + 1..];
        var inherited := GetOverwrites(ps[i]);
        if inherited.Some? {
          overwrites := overwrites + inherited.value;
        }
        i := i + 1;
      }
      if t in overwriteData {
        overwrites := overwrites + overwriteData[t];
      }
      resolvedTypes := resolvedTypes + [t];
      found := Some(overwrites);
    }

    /** `order` is the order in which the keys of `data` are enumerated. */
    method SetPlainData(data: Table, order: seq<Name>)
      requires KeysOf(data, order) && registry.KeysEnd(data)
      modifies this
      ensures (overwriteData, resolvedTypes) == Flatten(registry, data, [], order)
      ensures SingleInheritance(registry.inherits) ==> Sound(registry, data, overwriteData)
    {
      resolvedTypes := [];
      overwriteData := data;
      var i := 0;
      while i < |order|
        invariant i <= |order|
        invariant Flatten(registry, overwriteData, resolvedTypes, order[i..]) == Flatten(registry, data, [], order)
      {
        assert order[i..][0] == order[i] && order[i..][1..] == order[i + 1..];
        var overwrites := GetOverwrites(order[i]);
        if overwrites.Some? && |overwrites.value.Keys| > 0 {
          overwriteData := overwriteData[order[i] := overwrites.value];
        }
        i := i + 1;
      }
      if SingleInheritance(registry.inherits) {
        OriginalIsSound(registry, data);
        FlattenIsSound(registry, data, data, [], order);
      }
    }

    /** The saved table is loaded and flattened again: nothing changes, whatever data it was made from. */
    method Reload(order: seq<Name>, ghost data: Table)
      requires KeysOf(data, order) && registry.KeysEnd(data)
      requires (overwriteData, resolvedTypes) == Flatten(registry, data, [], order)
      modifies this
      ensures overwriteData == old(overwriteData) && resolvedTypes == old(resolvedTypes)
    {
      SaveAndReloadChangesNothing(registry, data, order);
      SetPlainData(overwriteData, order);
    }

    /**
     Merges the entries of the type and its ancestors, farthest first. After `SetPlainData(data)`
     the table is sound for `data`, and then the result is what `data` says at the nearest type.
     */
    method Get(name: Name, ghost data: Table) returns (fields: Option<Fields>)
      requires registry.Ends(name)
      ensures SingleInheritance(registry.inherits) && registry.KeysEnd(data) && Sound(registry, data, overwriteData)
          ==> NearestFields(data, SelfAndAncestors(registry, name), fields)
      ensures exists walk :: IsWalk(registry.inherits, name, walk) && fields == Merge(overwriteData, [name] + walk)
    {
      var parents := GetParentTypes(registry.inherits, name);
      var types := [name] + parents;
      fields := None;
      var i := |types|;
      while i > 0
        invariant 0 <= i <= |types|
        invariant fields == Merge(overwriteData, types[i..])
      {
        i := i - 1;
        assert types[i..][0] == types[i] && types[i..][1..] == types[i + 1..];
        if types[i] in overwriteData {
          fields := Some((if fields.Some? then fields.value else map[]) + overwriteData[types[i]]);
        }
      }
      assert types[0..] == types;
      if SingleInheritance(registry.inherits) && registry.KeysEnd(data) && Sound(registry, data, overwriteData) {
        WalkFindsNearest(registry, data, overwriteData, name, parents);
      }
    }
  }

  // ---------- Applying overwrites to stored credential data ----------

  predicate Empty(v: Value) {
    v == Null || v == Undefined || v == Text("")
  }

  function FieldOf(data: Fields, f: Field): Value {
    if f in data then data[f] else Undefined
  }

  /** Some overwritten field already holds a value of the user's own. */
  ghost predicate Customized(overwrites: Fields, data: Fields) {
    exists f :: f in overwrites && !Empty(FieldOf(data, f)) && FieldOf(data, f) != overwrites[f]
  }

  ghost function Filled(overwrites: Fields, data: Fields): Fields {
    map f | f in data.Keys + overwrites.Keys ::
      if f in overwrites && Empty(FieldOf(data, f)) then overwrites[f] else FieldOf(data, f)
  }

  ghost function Applied(overwrites: Option<Fields>, skip: bool, data: Fields): Fields {
    if overwrites.None? || (skip && Customized(overwrites.value, data)) then data
    else Filled(overwrites.value, data)
  }

  /**
   What the user filled in stays, always. What is absent, `null`, `undefined` or the empty string
   takes the overwrite, if there is one, unless the type is on the skip list and the user filled in
   some overwritten field differently; then nothing is changed.
   */
  lemma OverwritesFillOnlyGaps(overwrites: Option<Fields>, skip: bool, data: Fields)
    ensures var result := Applied(overwrites, skip, data);
      && (forall f :: f in data && data[f] !in {Null, Undefined, Text("")} ==> f in result && result[f] == data[f])
      && (overwrites.None? ==> result == data)
      && (overwrites.Some? ==>
            var ow := overwrites.value;
            if skip && exists f :: f in ow && f in data && data[f] !in {Null, Undefined, Text("")} && data[f] != ow[f]
            then result == data
            else
              && result.Keys == data.Keys + ow.Keys
              && (forall f :: f in data && f !in ow ==> result[f] == data[f])
              && (forall f :: f in ow && (f !in data || data[f] in {Null, Undefined, Text("")}) ==> result[f] == ow[f]))
  {
    if overwrites.Some? && skip && Customized(overwrites.value, data) {
      var f :| f in overwrites.value && !Empty(FieldOf(data, f)) && FieldOf(data, f) != overwrites.value[f];
      assert f in data && data[f] !in {Null, Undefined, Text("")};
    }
    if overwrites.Some? && skip {
      forall f
        | f in overwrites.value && f in data && data[f] !in {Null, Undefined, Text("")}
          && data[f] != overwrites.value[f]
        ensures Customized(overwrites.value, data)
      {
        assert !Empty(FieldOf(data, f));
      }
    }
  }

  method ApplyOverwrite(overwrites: Option<Fields>, skip: bool, data: Fields) returns (result: Fields)
    ensures result == Applied(overwrites, skip, data)
    ensures forall f :: f in data && data[f] !in {Null, Undefined, Text("")} ==> f in result && result[f] == data[f]
    ensures overwrites.Some? && !skip ==> forall f :: f in overwrites.value ==>
        f in result && (f !in data || data[f] in {Null, Undefined, Text("")} ==> result[f] == overwrites.value[f])
  {
    OverwritesFillOnlyGaps(overwrites, skip, data);
    if overwrites.None? {
      return data;
    }
    var ow := overwrites.value;
    if skip {
      var keys := ow.Keys;
      while keys != {}
        invariant keys <= ow.Keys
        invariant forall f :: f in ow.Keys - keys ==> Empty(FieldOf(data, f)) || FieldOf(data, f) == ow[f]
        decreases keys
      {
        var key :| key in keys;
        if !Empty(FieldOf(data, key)) && FieldOf(data, key) != ow[key] {
          assert Customized(ow, data);
          return data;
        }
        keys := keys - {key};
      }
    }
    result := data;
    var keys := ow.Keys;
    while keys != {}
      invariant keys <= ow.Keys
      invariant result.Keys == data.Keys + (ow.Keys - keys)
      invariant forall f :: f in result ==>
          result[f] == if f in ow.Keys - keys && Empty(FieldOf(data, f)) then ow[f] else FieldOf(data, f)
      decreases keys
    {
      var key :| key in keys;
      if Empty(FieldOf(result, key)) {
        result := result[key := ow[key]];
      }
      keys := keys - {key};
    }
  }

  /** Applying twice is applying once, and no non-empty field of the data ever changes. */
  lemma ApplyIsIdempotent(overwrites: Option<Fields>, skip: bool, data: Fields)
    ensures var once := Applied(overwrites, skip, data); Applied(overwrites, skip, once) == once
    ensures forall f :: f in data && data[f] !in {Null, Undefined, Text("")} ==>
        f in Applied(overwrites, skip, data) && Applied(overwrites, skip, data)[f] == data[f]
  {
    if overwrites.Some? && !(skip && Customized(overwrites.value, data)) {
      var once := Filled(overwrites.value, data);
      assert Filled(overwrites.value, once) == once;
    }
  }

  /** For a skip-listed type the overwrites are taken as a whole or not at all. */
  lemma SkipListedIsAllOrNothing(overwrites: Fields, data: Fields)
    ensures var result := Applied(Some(overwrites), true, data);
      if exists f ::
           f in overwrites && f in data && data[f] !in {Null, Undefined, Text("")} && data[f] != overwrites[f]
      then result == data
      else forall f :: f in overwrites ==> f in result && result[f] == overwrites[f]
  {
    OverwritesFillOnlyGaps(Some(overwrites), true, data);
  }
}
