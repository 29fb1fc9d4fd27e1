/**
 Hooking the native methods of the zygote class and undoing it (loader/src/injector/hook.cpp:220-261 and 776-788,
 loader/src/injector/jni_hooks.hpp:310-339). A hook family is the list of known variants of one method; its array
 holds the hook pointers before hooking and the pointers they replaced, or null, afterwards.
 */
module JniHooks {
  import opened Prelude

  datatype Key = Key(name: string, signature: string)

  /** A method of the class: whether it is native, and the function it is bound to. */
  datatype Binding = Binding(native: bool, ptr: nat)

  type Table = map<Key, Binding>

  const NULL: nat := 0

  /** JNINativeMethod */
  datatype Native = Native(key: Key, fnPtr: nat)

  predicate Matches(t: Table, m: Native)
  {
    m.key in t && t[m.key].native
  }

  /** The array after `hookJniNativeMethods`: the pointer each matching variant replaced, null for the others. */
  function Replaced(t: Table, methods: seq<Native>): (r: seq<Native>)
    ensures |r| == |methods|
    ensures forall i :: 0 <= i < |r| ==>
        r[i] == Native(methods[i].key, if Matches(t, methods[i]) then t[methods[i].key].ptr else NULL)
  {
    seq(|methods|, i requires 0 <= i < |methods| =>
          Native(methods[i].key, if Matches(t, methods[i]) then t[methods[i].key].ptr else NULL))
  }

  function Matching(t: Table, methods: seq<Native>): seq<Native>
  {
    if methods == [] then []
    else
      var n := |methods| - 1;
      Matching(t, methods[..n]) + if Matches(t, methods[n]) then [methods[n]] else []
  }

  /** `RegisterNatives`: bind the given methods one after the other. */
  function Register(t: Table, methods: seq<Native>): Table
  {
    if methods == [] then t
    else
      var n := |methods| - 1;
      var before := Register(t, methods[..n]);
      var m := methods[n];
      before[m.key := Binding(if m.key in before then before[m.key].native else true, m.fnPtr)]
  }

  function FirstNonNull(methods: seq<Native>): Option<Native>
  {
    if methods == [] then None
    else if methods[0].fnPtr != NULL then Some(methods[0])
    else FirstNonNull(methods[1..])
  }

  lemma {:induction false} NothingToPick(methods: seq<Native>)
    requires forall i :: 0 <= i < |methods| ==> methods[i].fnPtr == NULL
    ensures FirstNonNull(methods) == None
  {
    if methods == [] {
    } else {
      NothingToPick(methods[1..]);
    }
  }

  /** What is left after hooking: the class, the saved originals, and the list to restore from. */
  datatype Hooked = Hooked(table: Table, origs: seq<Option<nat>>, restore: seq<Native>)

  /** Hook the first `k` families, one after the other. */
  function HookFamilies(t: Table, families: seq<seq<Native>>, k: nat): Hooked
    requires k <= |families|
  {
    if k == 0 then Hooked(t, [], [])
    else
      var h := HookFamilies(t, families, k - 1);
      var methods := families[k - 1];
      var pick := FirstNonNull(Replaced(h.table, methods));
      Hooked(
        Register(h.table, Matching(h.table, methods)),
        h.origs + [if pick.Some? then Some(pick.value.fnPtr) else None],
        h.restore + if pick.Some? then [pick.value] else [])
  }

  predicate NoneSaved(origs: seq<Option<nat>>, n: nat)
  {
    |origs| == n && forall f :: 0 <= f < n ==> origs[f] == None
  }

  function Unhooked(t: Table, families: seq<seq<Native>>): Table
  {
    var h := HookFamilies(t, families, |families|);
    Register(h.table, h.restore)
  }

  // ----------------------------------------------------------------- the class

  class Jvm {
    var table: Table
    var classFound: bool
    var canHookJni: bool

    constructor (table: Table, classFound: bool)
      ensures this.table == table && this.classFound == classFound && !canHookJni
    {
      this.table, this.classFound, canHookJni := table, classFound, false;
    }

    /** The array is rewritten in place and the matching methods are rebound to the hooks. */
    method HookJniNativeMethods(methods: array<Native>)
      modifies methods, this`table
      ensures canHookJni && classFound ==>
                methods[..] == Replaced(old(table), old(methods[..])) &&
                table == Register(old(table), Matching(old(table), old(methods[..])))
      ensures canHookJni && !classFound ==>
                && table == old(table)
                && forall i :: 0 <= i < methods.Length ==> methods[i] == Native(old(methods[i].key), NULL)
      ensures !canHookJni ==> table == old(table) && methods[..] == old(methods[..])
    {
      if !canHookJni {
        return;
      }
      if !classFound {
        for i := 0 to methods.Length
          invariant forall k :: 0 <= k < i ==> methods[k] == Native(old(methods[k].key), NULL)
          invariant forall k :: i <= k < methods.Length ==> methods[k] == old(methods[k])
          invariant table == old(table)
        {
          methods[i] := methods[i].(fnPtr := NULL);
        }
        return;
      }
      ghost var given := methods[..];
      var hooks: seq<Native> := [];
      for i := 0 to methods.Length
        invariant table == old(table)
        invariant hooks == Matching(table, given[..i])
        invariant forall k :: 0 <= k < i ==> methods[k] == Replaced(table, given)[k]
        invariant forall k :: i <= k < methods.Length ==> methods[k] == given[k]
      {
        assert given[..i + 1][..i] == given[..i];
        var m := methods[i];
        if m.key !in table || !table[m.key].native {
          methods[i] := m.(fnPtr := NULL);
        } else {
          hooks := hooks + [m];
          methods[i] := m.(fnPtr := table[m.key].ptr);
        }
      }
      assert given[..methods.Length] == given;
      assert methods[..] == Replaced(table, given);
      table := Register(table, hooks);
    }

    /** The pointer saved for a family and the variant to restore: the first one that replaced something. */
    method PickFirst(methods: array<Native>) returns (pick: Option<Native>)
      ensures pick == FirstNonNull(methods[..])
    {
      for i := 0 to methods.Length
        invariant FirstNonNull(methods[..]) == FirstNonNull(methods[i..])
      {
        assert methods[i..][1..] == methods[i + 1..];
        if methods[i].fnPtr != NULL {
          return Some(methods[i]);
        }
      }
      return None;
    }

    /** Hook the families in turn; returns the saved originals and the restore list. Its one caller enables hooking. */
    method DoHookZygote(families: seq<array<Native>>, ghost given: seq<seq<Native>>)
      returns (origs: seq<Option<nat>>, restore: seq<Native>)
      requires canHookJni
      requires forall f, g :: 0 <= f < g < |families| ==> families[f] != families[g]
      requires |given| == |families| && forall f :: 0 <= f < |families| ==> given[f] == families[f][..]
      modifies this`table, set f | 0 <= f < |families| :: families[f]
      ensures classFound ==> Hooked(table, origs, restore) == HookFamilies(old(table), given, |families|)
      ensures !classFound ==> table == old(table) && restore == [] && NoneSaved(origs, |families|)
    {
      origs, restore := [], [];
      for f := 0 to |families|
        invariant classFound ==> Hooked(table, origs, restore) == HookFamilies(old(table), given, f)
        invariant !classFound ==> table == old(table) && restore == [] && NoneSaved(origs, f)
        invariant forall g :: f <= g < |families| ==> families[g][..] == given[g]
      {
        HookJniNativeMethods(families[f]);
        if !classFound {
          NothingToPick(families[f][..]);
        }
        var pick := PickFirst(families[f]);
        if pick.Some? {
          origs := origs + [Some(pick.value.fnPtr)];
          restore := restore + [pick.value];
        } else {
          origs := origs + [None];
        }
      }
    }

    /** The destructor's re-registration. */
    method RestoreHooks(restore: seq<Native>)
      modifies this`table
      ensures table == Register(old(table), restore)
    {
      if restore != [] {
        table := Register(table, restore);
      }
    }
  }
}
