/** When hooking and unhooking the native methods cancel out. */
module JniProofs {
  import opened Prelude
  import opened JniHooks

  ghost predicate DistinctKeys(methods: seq<Native>)
  {
    forall i, j :: 0 <= i < j < |methods| ==> methods[i].key != methods[j].key
  }

  ghost predicate HasKey(methods: seq<Native>, key: Key)
  {
    exists i :: 0 <= i < |methods| && methods[i].key == key
  }

  /** No two variants, in one family or in two, have the same name and signature. */
  ghost predicate DistinctVariants(families: seq<seq<Native>>)
  {
    forall f, i, g, j ::
      0 <= f < |families| && 0 <= i < |families[f]| && 0 <= g < |families| && 0 <= j < |families[g]| ==>
      families[f][i].key == families[g][j].key ==> f == g && i == j
  }

  /** No matching method is already bound to its hook. */
  ghost predicate NotYetHooked(t: Table, families: seq<seq<Native>>)
  {
    forall f, i :: 0 <= f < |families| && 0 <= i < |families[f]| && Matches(t, families[f][i]) ==>
      t[families[f][i].key].ptr != families[f][i].fnPtr
  }

  /** At most one variant of the family matches, and it is bound to something. */
  ghost predicate SingleMatch(t: Table, methods: seq<Native>)
  {
    && (forall i, j :: 0 <= i < |methods| && 0 <= j < |methods| ==>
          Matches(t, methods[i]) && Matches(t, methods[j]) ==> i == j)
    && (forall i :: 0 <= i < |methods| && Matches(t, methods[i]) ==> t[methods[i].key].ptr != NULL)
  }

  // ------------------------------------------------------------- registration

  lemma {:induction false} RegisterElsewhere(t: Table, methods: seq<Native>, key: Key)
    requires !HasKey(methods, key)
    ensures key in Register(t, methods) <==> key in t
    ensures key in t ==> Register(t, methods)[key] == t[key]
  {
    if methods == [] {
    } else {
      var n := |methods| - 1;
      assert methods[n].key != key;
      forall i | 0 <= i < n
        ensures methods[..n][i].key != key
      {
        assert methods[i].key != key;
      }
      RegisterElsewhere(t, methods[..n], key);
    }
  }

  lemma {:induction false} RegisterBinds(t: Table, methods: seq<Native>, i: nat)
    requires DistinctKeys(methods) && i < |methods| && methods[i].key in t
    ensures methods[i].key in Register(t, methods)
    ensures Register(t, methods)[methods[i].key] == Binding(t[methods[i].key].native, methods[i].fnPtr)
  {
    var n := |methods| - 1;
    var before := methods[..n];
    var key := methods[i].key;
    if i == n {
      assert !HasKey(before, key) by {
        forall k | 0 <= k < n
          ensures before[k].key != key
        {
          assert methods[k].key != methods[n].key;
        }
      }
      RegisterElsewhere(t, before, key);
    } else {
      assert methods[n].key != key;
      RegisterBinds(t, before, i);
    }
  }

  lemma {:induction false} MatchingHolds(t: Table, methods: seq<Native>)
    ensures forall m :: m in Matching(t, methods) <==> m in methods && Matches(t, m)
    ensures DistinctKeys(methods) ==> DistinctKeys(Matching(t, methods))
  {
    if methods == [] {
    } else {
      var n := |methods| - 1;
      var before := methods[..n];
      MatchingHolds(t, before);
      assert methods == before + [methods[n]];
      if DistinctKeys(methods) && Matches(t, methods[n]) {
        var kept := Matching(t, before);
        forall i | 0 <= i < |kept|
          ensures kept[i].key != methods[n].key
        {
          assert kept[i] in kept;
        }
      }
    }
  }

  // ------------------------------------------------------------------ picks

  function PickIn(t: Table, methods: seq<Native>): Option<Native>
  {
    FirstNonNull(Replaced(t, methods))
  }

  lemma {:induction false} FirstNonNullIsFirst(methods: seq<Native>)
    ensures match FirstNonNull(methods)
            case Some(m) =>
              exists i :: 0 <= i < |methods| && methods[i] == m && m.fnPtr != NULL &&
                forall k :: 0 <= k < i ==> methods[k].fnPtr == NULL
            case None => forall i :: 0 <= i < |methods| ==> methods[i].fnPtr == NULL
  {
    if methods != [] && methods[0].fnPtr == NULL {
      var rest := methods[1..];
      FirstNonNullIsFirst(rest);
      match FirstNonNull(rest)
      case Some(m) =>
        var i :| 0 <= i < |rest| && rest[i] == m && m.fnPtr != NULL && forall k :: 0 <= k < i ==> rest[k].fnPtr == NULL;
        assert methods[i + 1] == m;
        forall k | 0 <= k < i + 1
          ensures methods[k].fnPtr == NULL
        {
          if k > 0 {
            assert methods[k] == rest[k - 1];
          }
        }
      case None =>
        forall i | 0 <= i < |methods|
          ensures methods[i].fnPtr == NULL
        {
          if i > 0 {
            assert methods[i] == rest[i - 1];
          }
        }
    }
  }

  /** The picked variant matches, and the pointer saved for it is the one bound before hooking. */
  lemma PickWasBound(t: Table, methods: seq<Native>)
    requires PickIn(t, methods).Some?
    ensures
      var p := PickIn(t, methods).value;
      && p.fnPtr != NULL
      && (exists i :: 0 <= i < |methods| && methods[i].key == p.key && Matches(t, methods[i]))
      && p.key in t && t[p.key] == Binding(true, p.fnPtr)
  {
    FirstNonNullIsFirst(Replaced(t, methods));
  }

  /** The family is in order exactly if every matching variant is the one picked. */
  lemma SingleMatchIff(t: Table, methods: seq<Native>)
    requires DistinctKeys(methods)
    ensures SingleMatch(t, methods) <==>
            forall i :: 0 <= i < |methods| && Matches(t, methods[i]) ==>
              PickIn(t, methods).Some? && PickIn(t, methods).value.key == methods[i].key
  {
    FirstNonNullIsFirst(Replaced(t, methods));
    if SingleMatch(t, methods) {
      forall i | 0 <= i < |methods| && Matches(t, methods[i])
        ensures PickIn(t, methods).Some? && PickIn(t, methods).value.key == methods[i].key
      {
        assert Replaced(t, methods)[i].fnPtr != NULL;
        PickWasBound(t, methods);
      }
    }
    if forall i :: 0 <= i < |methods| && Matches(t, methods[i]) ==>
        PickIn(t, methods).Some? && PickIn(t, methods).value.key == methods[i].key
    {
      if PickIn(t, methods).Some? {
        PickWasBound(t, methods);
      }
    }
  }

  // ---------------------------------------------------------------- all families

  function Picks(t: Table, families: seq<seq<Native>>, k: nat): seq<Native>
    requires k <= |families|
  {
    if k == 0 then []
    else
      var pick := PickIn(t, families[k - 1]);
      Picks(t, families, k - 1) + if pick.Some? then [pick.value] else []
  }

  /** Some variant of the first `k` families matches the method `key`. */
  ghost predicate Hit(t: Table, families: seq<seq<Native>>, k: nat, key: Key)
    requires k <= |families|
  {
    exists f, i :: 0 <= f < k && 0 <= i < |families[f]| && families[f][i].key == key && Matches(t, families[f][i])
  }

  /** Matching variants of the first `k` families are installed, and no other method changed. */
  ghost predicate TableHooked(t: Table, families: seq<seq<Native>>, k: nat, table: Table)
    requires k <= |families|
  {
    && table.Keys == t.Keys
    && (forall f, i :: 0 <= f < k && 0 <= i < |families[f]| && Matches(t, families[f][i]) ==>
          table[families[f][i].key] == Binding(true, families[f][i].fnPtr))
    && (forall key :: key in t && !Hit(t, families, k, key) ==> table[key] == t[key])
  }

  function OrigIn(t: Table, methods: seq<Native>): Option<nat>
  {
    match PickIn(t, methods)
    case Some(p) => Some(p.fnPtr)
    case None => None
  }

  ghost predicate PicksSaved(t: Table, families: seq<seq<Native>>, k: nat, h: Hooked)
    requires k <= |families|
  {
    && h.restore == Picks(t, families, k)
    && |h.origs| == k
    && (forall f :: 0 <= f < k ==> h.origs[f] == OrigIn(t, families[f]))
  }

  ghost predicate AfterHooking(t: Table, families: seq<seq<Native>>, k: nat, h: Hooked)
    requires k <= |families|
  {
    TableHooked(t, families, k, h.table) && PicksSaved(t, families, k, h)
  }

  /** A family not hooked yet still sees the original bindings. */
  lemma LaterFamilyUntouched(t: Table, families: seq<seq<Native>>, k: nat, table: Table)
    requires k < |families| && DistinctVariants(families) && TableHooked(t, families, k, table)
    ensures forall i :: 0 <= i < |families[k]| && families[k][i].key in t ==>
        table[families[k][i].key] == t[families[k][i].key]
    ensures Replaced(table, families[k]) == Replaced(t, families[k])
    ensures forall i :: 0 <= i < |families[k]| ==> (Matches(table, families[k][i]) <==> Matches(t, families[k][i]))
  {
    forall i | 0 <= i < |families[k]| && families[k][i].key in t
      ensures table[families[k][i].key] == t[families[k][i].key]
    {
      assert !Hit(t, families, k, families[k][i].key);
    }
  }

  lemma FamilyKeysDistinct(families: seq<seq<Native>>, k: nat)
    requires k < |families| && DistinctVariants(families)
    ensures DistinctKeys(families[k])
  {
  }

  lemma HookedEntries(t: Table, families: seq<seq<Native>>, k: nat, table: Table, key: Key)
    requires k < |families| && DistinctVariants(families) && TableHooked(t, families, k, table) && key in t
    ensures
      var methods := families[k];
      var table' := Register(table, Matching(table, methods));
      && key in table'
      && (forall i :: 0 <= i < |methods| && methods[i].key == key && Matches(t, methods[i]) ==>
            table'[key] == Binding(true, methods[i].fnPtr))
      && ((forall i :: 0 <= i < |methods| && methods[i].key == key ==> !Matches(t, methods[i])) ==>
            table'[key] == table[key])
  {
    var methods := families[k];
    var hooks := Matching(table, methods);
    LaterFamilyUntouched(t, families, k, table);
    FamilyKeysDistinct(families, k);
    MatchingHolds(table, methods);
    if HasKey(hooks, key) {
      var j :| 0 <= j < |hooks| && hooks[j].key == key;
      assert hooks[j] in hooks;
      RegisterBinds(table, hooks, j);
    } else {
      RegisterElsewhere(table, hooks, key);
      assert forall m :: m in hooks ==> m.key != key;
      forall i | 0 <= i < |methods| && methods[i].key == key
        ensures !Matches(t, methods[i])
      {
        assert methods[i] in methods && methods[i] !in hooks;
      }
    }
  }

  lemma HookedKeys(t: Table, methods: seq<Native>)
    ensures Register(t, Matching(t, methods)).Keys == t.Keys
  {
    var hooks := Matching(t, methods);
    MatchingHolds(t, methods);
    RegisterKeys(t, hooks);
  }

  lemma {:induction false} RegisterKeys(t: Table, methods: seq<Native>)
    requires forall m :: m in methods ==> m.key in t
    ensures Register(t, methods).Keys == t.Keys
  {
    if methods == [] {
    } else {
      RegisterKeys(t, methods[..|methods| - 1]);
    }
  }

  lemma {:induction false} HookingTable(t: Table, families: seq<seq<Native>>, k: nat)
    requires k <= |families| && DistinctVariants(families)
    ensures TableHooked(t, families, k, HookFamilies(t, families, k).table)
  {
    if k == 0 {
    } else {
      HookingTable(t, families, k - 1);
      HookingStep(t, families, k - 1, HookFamilies(t, families, k - 1).table);
    }
  }

  lemma {:induction false} HookingPicks(t: Table, families: seq<seq<Native>>, k: nat)
    requires k <= |families| && DistinctVariants(families)
    ensures PicksSaved(t, families, k, HookFamilies(t, families, k))
  {
    if k == 0 {
    } else {
      HookingPicks(t, families, k - 1);
      SameReplaced(t, families, k - 1);
      PicksStep(t, families, k - 1, HookFamilies(t, families, k - 1));
    }
  }

  /** When its turn comes, a family replaces what was bound before any hooking. */
  lemma SameReplaced(t: Table, families: seq<seq<Native>>, k: nat)
    requires k < |families| && DistinctVariants(families)
    ensures Replaced(HookFamilies(t, families, k).table, families[k]) == Replaced(t, families[k])
  {
    HookingTable(t, families, k);
    LaterFamilyUntouched(t, families, k, HookFamilies(t, families, k).table);
  }

  lemma HookingState(t: Table, families: seq<seq<Native>>, k: nat)
    requires k <= |families| && DistinctVariants(families)
    ensures AfterHooking(t, families, k, HookFamilies(t, families, k))
  {
    HookingTable(t, families, k);
    HookingPicks(t, families, k);
  }

  lemma PicksStep(t: Table, families: seq<seq<Native>>, k: nat, h: Hooked)
    requires k < |families| && h == HookFamilies(t, families, k) && PicksSaved(t, families, k, h)
    requires Replaced(h.table, families[k]) == Replaced(t, families[k])
    ensures PicksSaved(t, families, k + 1, HookFamilies(t, families, k + 1))
  {
  }

  lemma HookingStepHit(t: Table, families: seq<seq<Native>>, k: nat, table: Table, f: nat, i: nat)
    requires k < |families| && DistinctVariants(families) && TableHooked(t, families, k, table)
    requires f <= k && i < |families[f]| && Matches(t, families[f][i])
    ensures
      var table' := Register(table, Matching(table, families[k]));
      families[f][i].key in table' && table'[families[f][i].key] == Binding(true, families[f][i].fnPtr)
  {
    HookedEntries(t, families, k, table, families[f][i].key);
  }

  lemma HookingStepMiss(t: Table, families: seq<seq<Native>>, k: nat, table: Table, key: Key)
    requires k < |families| && DistinctVariants(families) && TableHooked(t, families, k, table)
    requires key in t && !Hit(t, families, k + 1, key)
    ensures
      var table' := Register(table, Matching(table, families[k]));
      key in table' && table'[key] == t[key]
  {
    HookedEntries(t, families, k, table, key);
    assert !Hit(t, families, k, key);
  }

  lemma HookingStep(t: Table, families: seq<seq<Native>>, k: nat, table: Table)
    requires k < |families| && DistinctVariants(families) && TableHooked(t, families, k, table)
    ensures TableHooked(t, families, k + 1, Register(table, Matching(table, families[k])))
  {
    var table' := Register(table, Matching(table, families[k]));
    HookedKeys(table, families[k]);
    forall f, i | 0 <= f < k + 1 && 0 <= i < |families[f]| && Matches(t, families[f][i])
      ensures table'[families[f][i].key] == Binding(true, families[f][i].fnPtr)
    {
      HookingStepHit(t, families, k, table, f, i);
    }
    forall key | key in t && !Hit(t, families, k + 1, key)
      ensures table'[key] == t[key]
    {
      HookingStepMiss(t, families, k, table, key);
    }
  }

  // ------------------------------------------------------------------ restoring

  ghost predicate PickedKey(t: Table, families: seq<seq<Native>>, k: nat, key: Key)
    requires k <= |families|
  {
    exists f :: 0 <= f < k && PickIn(t, families[f]).Some? && PickIn(t, families[f]).value.key == key
  }

  lemma {:induction false} PicksHold(t: Table, families: seq<seq<Native>>, k: nat)
    requires k <= |families| && DistinctVariants(families)
    ensures DistinctKeys(Picks(t, families, k))
    ensures forall key :: HasKey(Picks(t, families, k), key) <==> PickedKey(t, families, k, key)
    ensures forall p :: p in Picks(t, families, k) ==> p.key in t && t[p.key] == Binding(true, p.fnPtr)
  {
    if k == 0 {
    } else {
      PicksHold(t, families, k - 1);
      var before := Picks(t, families, k - 1);
      var pick := PickIn(t, families[k - 1]);
      if pick.Some? {
        PickWasBound(t, families[k - 1]);
        PickIsNew(t, families, k - 1);
        assert !HasKey(before, pick.value.key);
        var all := before + [pick.value];
        assert Picks(t, families, k) == all;
        assert all[|before|] == pick.value;
        forall key
          ensures HasKey(all, key) <==> HasKey(before, key) || key == pick.value.key
        {
          if HasKey(before, key) {
            var i :| 0 <= i < |before| && before[i].key == key;
            assert all[i].key == key;
          }
        }
      } else {
        assert Picks(t, families, k) == before;
      }
      forall key
        ensures PickedKey(t, families, k, key) <==>
            PickedKey(t, families, k - 1, key) || (pick.Some? && pick.value.key == key)
      {
      }
    }
  }

  lemma PickIsNew(t: Table, families: seq<seq<Native>>, k: nat)
    requires k < |families| && DistinctVariants(families) && PickIn(t, families[k]).Some?
    ensures !PickedKey(t, families, k, PickIn(t, families[k]).value.key)
  {
    var key := PickIn(t, families[k]).value.key;
    PickWasBound(t, families[k]);
    if PickedKey(t, families, k, key) {
      var f :| 0 <= f < k && PickIn(t, families[f]).Some? && PickIn(t, families[f]).value.key == key;
      PickWasBound(t, families[f]);
      assert false;
    }
  }

  /**
   After unhooking a method has its original binding if it was never hooked or its variant was picked; and, unless
   its hook was what it had been bound to, only then.
   */
  lemma UnhookedBinding(t: Table, families: seq<seq<Native>>, key: Key)
    requires DistinctVariants(families) && key in t
    ensures key in Unhooked(t, families)
    ensures !Hit(t, families, |families|, key) || PickedKey(t, families, |families|, key) ==>
              Unhooked(t, families)[key] == t[key]
    ensures NotYetHooked(t, families) && Unhooked(t, families)[key] == t[key] ==>
              !Hit(t, families, |families|, key) || PickedKey(t, families, |families|, key)
  {
    var n := |families|;
    var h := HookFamilies(t, families, n);
    HookingState(t, families, n);
    PicksHold(t, families, n);
    if HasKey(h.restore, key) {
      var i :| 0 <= i < |h.restore| && h.restore[i].key == key;
      assert h.restore[i] in h.restore;
      RegisterBinds(h.table, h.restore, i);
      RestoredNative(t, families, key);
    } else {
      RegisterElsewhere(h.table, h.restore, key);
    }
  }

  lemma RestoredNative(t: Table, families: seq<seq<Native>>, key: Key)
    requires DistinctVariants(families) && key in t && PickedKey(t, families, |families|, key)
    ensures
      var table := HookFamilies(t, families, |families|).table;
      key in table && table[key].native
  {
    HookingState(t, families, |families|);
    var f :| 0 <= f < |families| && PickIn(t, families[f]).Some? && PickIn(t, families[f]).value.key == key;
    PickWasBound(t, families[f]);
  }

  lemma UnhookedKeys(t: Table, families: seq<seq<Native>>)
    requires DistinctVariants(families)
    ensures Unhooked(t, families).Keys == t.Keys
  {
    HookingState(t, families, |families|);
    PicksHold(t, families, |families|);
    RegisterKeys(HookFamilies(t, families, |families|).table, Picks(t, families, |families|));
  }

  /**
   Hooking followed by the destructor's re-registration restores the method table if in every family at most one
   variant matches and that one was bound; and on a table without hooks only then. Only the first variant of a
   family is restored.
   */
  lemma UnhookRestoresIff(t: Table, families: seq<seq<Native>>)
    requires DistinctVariants(families)
    ensures (forall f :: 0 <= f < |families| ==> SingleMatch(t, families[f])) ==> Unhooked(t, families) == t
    ensures NotYetHooked(t, families) && Unhooked(t, families) == t ==>
              forall f :: 0 <= f < |families| ==> SingleMatch(t, families[f])
  {
    UnhookedKeys(t, families);
    if forall f :: 0 <= f < |families| ==> SingleMatch(t, families[f]) {
      forall key | key in t
        ensures Unhooked(t, families)[key] == t[key]
      {
        UnhookedBinding(t, families, key);
        SingleMatchesArePicked(t, families, key);
      }
      assert Unhooked(t, families) == t;
    }
    if NotYetHooked(t, families) && Unhooked(t, families) == t {
      forall f | 0 <= f < |families|
        ensures SingleMatch(t, families[f])
      {
        RestoredFamily(t, families, f);
      }
    }
  }

  lemma SingleMatchesArePicked(t: Table, families: seq<seq<Native>>, key: Key)
    requires DistinctVariants(families)
    requires forall f :: 0 <= f < |families| ==> SingleMatch(t, families[f])
    ensures Hit(t, families, |families|, key) ==> PickedKey(t, families, |families|, key)
  {
    if Hit(t, families, |families|, key) {
      var f, i :| 0 <= f < |families| && 0 <= i < |families[f]| && families[f][i].key == key &&
        Matches(t, families[f][i]);
      FamilyKeysDistinct(families, f);
      SingleMatchIff(t, families[f]);
    }
  }

  lemma RestoredFamily(t: Table, families: seq<seq<Native>>, f: nat)
    requires DistinctVariants(families) && NotYetHooked(t, families) && f < |families|
    requires Unhooked(t, families) == t
    ensures SingleMatch(t, families[f])
  {
    var methods := families[f];
    FamilyKeysDistinct(families, f);
    forall i | 0 <= i < |methods| && Matches(t, methods[i])
      ensures PickIn(t, methods).Some? && PickIn(t, methods).value.key == methods[i].key
    {
      var key := methods[i].key;
      UnhookedBinding(t, families, key);
      assert Hit(t, families, |families|, key);
      var g :| 0 <= g < |families| && PickIn(t, families[g]).Some? && PickIn(t, families[g]).value.key == key;
      PickWasBound(t, families[g]);
      var j :| 0 <= j < |families[g]| && families[g][j].key == key && Matches(t, families[g][j]);
      assert g == f;
    }
    SingleMatchIff(t, methods);
  }

  /** Each saved original is the pointer that the picked variant's method was bound to before any hooking. */
  lemma OriginalsWereBound(t: Table, families: seq<seq<Native>>, f: nat)
    requires DistinctVariants(families) && f < |families|
    ensures
      var h := HookFamilies(t, families, |families|);
      && |h.origs| == |families|
      && (h.origs[f].Some? ==>
            exists i :: 0 <= i < |families[f]| && Matches(t, families[f][i]) &&
              t[families[f][i].key].ptr == h.origs[f].value)
      && (h.origs[f] == None ==>
            forall i :: 0 <= i < |families[f]| && Matches(t, families[f][i]) ==> t[families[f][i].key].ptr == NULL)
  {
    HookingState(t, families, |families|);
    FirstNonNullIsFirst(Replaced(t, families[f]));
    assert HookFamilies(t, families, |families|).origs[f] == OrigIn(t, families[f]);
    if PickIn(t, families[f]).Some? {
      PickWasBound(t, families[f]);
    } else {
      forall i | 0 <= i < |families[f]| && Matches(t, families[f][i])
        ensures t[families[f][i].key].ptr == NULL
      {
        assert Replaced(t, families[f])[i].fnPtr == NULL;
      }
    }
  }

  /**
   Hooking the zygote and the destructor's re-registration on the same machine: the method table is back, also if the
   class was not found, whenever every family has at most one matching variant, bound to something; and on a
   table without hooks only then.
   */
  method HookAndRestore(jvm: Jvm, families: seq<array<Native>>, ghost given: seq<seq<Native>>)
    requires forall f, g :: 0 <= f < g < |families| ==> families[f] != families[g]
    requires |given| == |families| && forall f :: 0 <= f < |families| ==> given[f] == families[f][..]
    requires DistinctVariants(given)
    modifies jvm`table, jvm`canHookJni, set f | 0 <= f < |families| :: families[f]
    ensures !jvm.classFound ==> jvm.table == old(jvm.table)
    ensures (forall f :: 0 <= f < |given| ==> SingleMatch(old(jvm.table), given[f])) ==> jvm.table == old(jvm.table)
    ensures jvm.classFound && NotYetHooked(old(jvm.table), given) && jvm.table == old(jvm.table) ==>
              forall f :: 0 <= f < |given| ==> SingleMatch(old(jvm.table), given[f])
  {
    jvm.canHookJni := true;
    var _, restore := jvm.DoHookZygote(families, given);
    jvm.RestoreHooks(restore);
    UnhookRestoresIff(old(jvm.table), given);
  }

  /** Two bound variants of one family: the second does not get its binding back. */
  lemma SecondVariantStaysHooked(a: Key, b: Key)
    requires a != b
    ensures
      var t := map[a := Binding(true, 1), b := Binding(true, 2)];
      var families := [[Native(a, 10), Native(b, 20)]];
      Unhooked(t, families).Keys == t.Keys && Unhooked(t, families)[b] != t[b]
  {
    var t := map[a := Binding(true, 1), b := Binding(true, 2)];
    var methods := [Native(a, 10), Native(b, 20)];
    var families := [methods];
    assert Replaced(t, methods)[0] == Native(a, 1);
    assert PickIn(t, methods) == Some(Native(a, 1));
    assert Matches(t, families[0][1]) && Hit(t, families, 1, b);
    UnhookedKeys(t, families);
    UnhookedBinding(t, families, b);
  }
}
