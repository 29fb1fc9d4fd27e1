/**
 The descriptor bookkeeping of a specialising process (loader/src/injector/hook.cpp:468-544, 695-702 and 742-757): which
 descriptors were open at the fork, which are exempt, and the sweep that closes all others.
 */
module FdSanitizer {
  import opened Prelude

  const MAX_FD_SIZE: int := 1024

  predicate InRange(fd: int)
  {
    0 <= fd < MAX_FD_SIZE
  }

  function Below(fds: set<int>): set<int>
  {
    set fd | fd in fds && InRange(fd)
  }

  function Listed(fds: seq<int>): set<int>
  {
    set fd | fd in fds && InRange(fd)
  }

  /** The descriptors a sweep leaves open. */
  function Kept(open: set<int>, allowed: set<int>): set<int>
  {
    set fd | fd in open && InRange(fd) && fd in allowed
  }

  /** The kernel hands out the lowest descriptor that is not open. */
  ghost predicate LowestFree(open: set<int>, dir: int)
  {
    dir >= 0 && dir !in open && forall fd :: 0 <= fd < dir ==> fd in open
  }

  /**
   Names read from `/proc/self/fd` while `dir` is the descriptor of the directory itself: open descriptors in some
   order, and -1 for the names that are not numbers.
   */
  ghost predicate Names(entries: seq<int>, open: set<int>, dir: int)
  {
    && LowestFree(open, dir)
    && (forall fd :: fd in open ==> fd >= 0)
    && (forall fd :: fd in entries ==> fd == -1 || fd in open || fd == dir)
    && dir in entries
  }

  /** All names were read. */
  ghost predicate Listing(entries: seq<int>, open: set<int>, dir: int)
  {
    Names(entries, open, dir) && forall fd :: fd in open ==> fd in entries
  }

  /** The listed descriptors a sweep closes. */
  function Rejected(entries: seq<int>, allowed: set<int>, dir: int): set<int>
  {
    set fd | fd in entries && (!InRange(fd) || fd !in allowed) && fd != dir
  }

  lemma RejectedAreGone(open: set<int>, entries: seq<int>, allowed: set<int>, dir: int)
    requires Listing(entries, open, dir)
    ensures open + {dir} - Rejected(entries, allowed, dir) - {dir} == Kept(open, allowed)
  {
    forall fd
      ensures fd in open + {dir} - Rejected(entries, allowed, dir) - {dir} <==> fd in Kept(open, allowed)
    {
      if fd in open {
        assert fd in entries && fd != dir;
      }
    }
  }

  /** What module code does before the sweep. */
  datatype Action = Opens(fd: nat) | Closes(fd: nat) | Exempts(asked: int)

  function OpenAfter(open: set<int>, actions: seq<Action>): set<int>
  {
    if actions == [] then open
    else
      var before := OpenAfter(open, actions[..|actions| - 1]);
      match actions[|actions| - 1]
      case Opens(fd) => before + {fd}
      case Closes(fd) => before - {fd}
      case Exempts(_) => before
  }

  /** The descriptors the modules asked to exempt, in order. */
  function Requests(actions: seq<Action>): seq<int>
  {
    if actions == [] then []
    else
      Requests(actions[..|actions| - 1]) +
      match actions[|actions| - 1]
      case Exempts(fd) => [fd]
      case _ => []
  }

  // --------------------------------------------------------------------- the fork

  /**
   What the child finds at the fork: its open descriptors, the descriptor of the directory it reads, the names it reads,
   and what the list of exempted descriptors, which lies behind the table, reads as after a write outside the table.
   */
  datatype Fork = Fork(open: set<int>, dir: int, entries: seq<int>, garbled: seq<int>)

  /** A directory whose own descriptor is beyond the table is closed while it is read, so names can be missed. */
  ghost predicate Possible(f: Fork)
  {
    Names(f.entries, f.open, f.dir) && (InRange(f.dir) ==> Listing(f.entries, f.open, f.dir))
  }

  /** Every descriptor of the table is taken. */
  predicate Full(open: set<int>)
  {
    forall fd :: 0 <= fd < MAX_FD_SIZE ==> fd in open
  }

  lemma BeyondTableIff(open: set<int>, dir: int)
    requires LowestFree(open, dir)
    ensures !InRange(dir) <==> Full(open)
  {
  }

  function OpenAtFork(f: Fork): set<int>
  {
    set fd | fd in f.open && (InRange(fd) || fd !in f.entries)
  }

  function Recorded(f: Fork): set<int>
  {
    Listed(f.entries) - {f.dir}
  }

  /** With a free place in the table, exactly the descriptors below 1024 stay open and are recorded. */
  lemma WholeFork(f: Fork)
    requires Possible(f) && !Full(f.open)
    ensures OpenAtFork(f) == Below(f.open) && Recorded(f) == Below(f.open)
  {
    BeyondTableIff(f.open, f.dir);
    forall fd
      ensures fd in OpenAtFork(f) <==> fd in Below(f.open)
      ensures fd in Recorded(f) <==> fd in Below(f.open)
    {
      if fd in f.open {
        assert fd in f.entries && fd != f.dir;
      }
    }
  }

  // -------------------------------------------------------------- the whole outcome

  function LogList(logFd: int): seq<int>
  {
    if logFd != -1 then [logFd] else []
  }

  /** The list of exempted descriptors when the sweep begins. */
  function Exempted(f: Fork, logFd: int, actions: seq<Action>): seq<int>
  {
    (if Full(f.open) then f.garbled else LogList(logFd)) + Requests(actions)
  }

  function OrEmpty(ignore: Option<seq<int>>): seq<int>
  {
    if ignore.Some? then ignore.value else []
  }

  function IgnoredAfter(ignore: Option<seq<int>>, exempt: seq<int>, arrayMade: bool): Option<seq<int>>
  {
    if exempt != [] && arrayMade then Some(OrEmpty(ignore) + exempt) else ignore
  }

  /** The requests are the exempting actions, in order: action `i`, if it is one, is request number `Asked(.., i)`. */
  function Asked(actions: seq<Action>, i: nat): nat
    requires i <= |actions|
  {
    if i == 0 then 0 else Asked(actions, i - 1) + if actions[i - 1].Exempts? then 1 else 0
  }

  lemma {:induction false} RequestsAreTheExemptions(actions: seq<Action>)
    ensures |Requests(actions)| == Asked(actions, |actions|)
    ensures forall i :: 0 <= i < |actions| && actions[i].Exempts? ==>
              Asked(actions, i) < |Requests(actions)| && Requests(actions)[Asked(actions, i)] == actions[i].asked
  {
    if actions == [] {
    } else {
      var n := |actions| - 1;
      var before := actions[..n];
      RequestsAreTheExemptions(before);
      forall i | 0 <= i <= n
        ensures Asked(before, i) == Asked(actions, i)
      {
        AskedOfPrefix(actions, n, i);
      }
      forall i | 0 <= i < |actions| && actions[i].Exempts?
        ensures Asked(actions, i) < |Requests(actions)| && Requests(actions)[Asked(actions, i)] == actions[i].asked
      {
        if i < n {
          assert before[i] == actions[i];
        }
      }
    }
  }

  lemma {:induction false} AskedOfPrefix(actions: seq<Action>, n: nat, i: nat)
    requires i <= n <= |actions|
    ensures Asked(actions[..n], i) == Asked(actions, i)
  {
    if i == 0 {
    } else {
      AskedOfPrefix(actions, n, i - 1);
    }
  }

  /** What may stay open, given what was recorded at the fork. */
  function Allowed(recorded: set<int>, ignore: Option<seq<int>>, exempt: seq<int>, arrayMade: bool): set<int>
  {
    recorded + Listed(OrEmpty(ignore)) + if arrayMade then Listed(exempt) else {}
  }

  /** The descriptors the child has open after the sweep. */
  function ChildOpen(
    f: Fork, ignore: Option<seq<int>>, exempt: seq<int>, actions: seq<Action>, arrayMade: bool): set<int>
  {
    Kept(OpenAfter(OpenAtFork(f), actions), Allowed(Recorded(f), ignore, exempt, arrayMade))
  }

  /**
   The promise: open are exactly the descriptors open before the sweep that are below 1024 and were open at the fork,
   are to be ignored, or (if the array could be allocated) were exempted; and the new ignore array is the old one
   followed by the exempted ones.
   */
  ghost predicate Conserved(
    open: set<int>, ignore: Option<seq<int>>, logFd: int, actions: seq<Action>, arrayMade: bool,
    openAfter: set<int>, ignoreAfter: Option<seq<int>>)
  {
    var exempt := (if logFd == -1 then [] else [logFd]) + Requests(actions);
    && OldThenExempted(ignore, exempt, arrayMade, ignoreAfter)
    && StayOpen(openAfter, OpenAfter(Below(open), actions), open, OrEmpty(ignore), if arrayMade then exempt else [])
  }

  /** The old entries come first, then the exempted ones; without these, or without an array, the old array stays. */
  ghost predicate OldThenExempted(
    ignore: Option<seq<int>>, exempt: seq<int>, arrayMade: bool, ignoreAfter: Option<seq<int>>)
  {
    var old' := if ignore.None? then [] else ignore.value;
    if exempt == [] || !arrayMade then ignoreAfter == ignore
    else
      && ignoreAfter.Some? && |ignoreAfter.value| == |old'| + |exempt|
      && (forall i :: 0 <= i < |old'| ==> ignoreAfter.value[i] == old'[i])
      && (forall i :: 0 <= i < |exempt| ==> ignoreAfter.value[|old'| + i] == exempt[i])
  }

  lemma IgnoredAfterIs(ignore: Option<seq<int>>, exempt: seq<int>, arrayMade: bool)
    ensures OldThenExempted(ignore, exempt, arrayMade, IgnoredAfter(ignore, exempt, arrayMade))
  {
  }

  ghost predicate StayOpen(openAfter: set<int>, before: set<int>, atFork: set<int>, ignore: seq<int>, exempt: seq<int>)
  {
    forall fd :: fd in openAfter <==>
      fd in before && InRange(fd) && (fd in atFork || fd in ignore || fd in exempt)
  }

  ghost predicate OutcomeConserved(
    f: Fork, ignore: Option<seq<int>>, logFd: int, actions: seq<Action>, arrayMade: bool)
  {
    var exempt := Exempted(f, logFd, actions);
    Conserved(f.open, ignore, logFd, actions, arrayMade,
              ChildOpen(f, ignore, exempt, actions, arrayMade), IgnoredAfter(ignore, exempt, arrayMade))
  }

  lemma FreePlaceConserves(f: Fork, ignore: Option<seq<int>>, logFd: int, actions: seq<Action>, arrayMade: bool)
    requires Possible(f) && !Full(f.open)
    ensures OutcomeConserved(f, ignore, logFd, actions, arrayMade)
  {
    WholeFork(f);
    IgnoredAfterIs(ignore, Exempted(f, logFd, actions), arrayMade);
  }

  lemma OutcomeIsConserved(
    f: Fork, ignore: Option<seq<int>>, logFd: int, actions: seq<Action>, arrayMade: bool,
    openAfter: set<int>, ignoreAfter: Option<seq<int>>)
    requires Possible(f)
    requires openAfter == ChildOpen(f, ignore, Exempted(f, logFd, actions), actions, arrayMade)
    requires ignoreAfter == IgnoredAfter(ignore, Exempted(f, logFd, actions), arrayMade)
    ensures !Full(f.open) ==> Conserved(f.open, ignore, logFd, actions, arrayMade, openAfter, ignoreAfter)
  {
    if !Full(f.open) {
      FreePlaceConserves(f, ignore, logFd, actions, arrayMade);
    }
  }

  /** The exempted list as it was, with one more descriptor in front. */
  lemma FullTableBreaks(f: Fork, ignore: Option<seq<int>>, logFd: int, actions: seq<Action>)
    requires Full(f.open)
    ensures !OutcomeConserved(f.(garbled := [0] + LogList(logFd)), ignore, logFd, actions, true)
  {
    var exempt := LogList(logFd) + Requests(actions);
    var garbled := [0] + LogList(logFd) + Requests(actions);
    assert |garbled| == |exempt| + 1;
    assert |OrEmpty(IgnoredAfter(ignore, garbled, true))| == |OrEmpty(ignore)| + |exempt| + 1;
  }

  /**
   Whatever the directory lists, the modules do and the array allocated for them holds: the promise is kept however the
   memory behind the table ends up if and only if some descriptor below 1024 is free at the fork.
   */
  lemma ConservedIff(f: Fork, ignore: Option<seq<int>>, logFd: int, actions: seq<Action>)
    requires Possible(f)
    ensures (forall garbled :: OutcomeConserved(f.(garbled := garbled), ignore, logFd, actions, true)) <==>
        !Full(f.open)
  {
    if Full(f.open) {
      FullTableBreaks(f, ignore, logFd, actions);
    } else {
      forall garbled
        ensures OutcomeConserved(f.(garbled := garbled), ignore, logFd, actions, true)
      {
        FreePlaceConserves(f.(garbled := garbled), ignore, logFd, actions, true);
      }
    }
  }

  const TABLE: set<int> := set fd | 0 <= fd < MAX_FD_SIZE && InRange(fd)

  /** A process with 0 to 1023 open: the exemption of descriptor 3 can be lost. */
  lemma FullTableLosesExemption()
    ensures
      var f := Fork(TABLE, MAX_FD_SIZE, seq(MAX_FD_SIZE + 1, i => i), []);
      && Possible(f)
      && Exempted(f, 3, []) == []
      && IgnoredAfter(Some([9]), Exempted(f, 3, []), true) == Some([9])
      && !OutcomeConserved(f, Some([9]), 3, [], true)
  {
    var f := Fork(TABLE, MAX_FD_SIZE, seq(MAX_FD_SIZE + 1, i => i), []);
    assert f.entries[MAX_FD_SIZE] == MAX_FD_SIZE;
    assert LogList(3) + Requests([]) == [3] && OrEmpty(Some([9])) + [3] == [9, 3];
  }

  class ZygiskContext {
    var pid: int
    var appFork: bool
    var postSpecialize: bool
    var skipSanitization: bool
    var allowed: set<int>
    var exempted: seq<int>
    var fdsToIgnore: Option<seq<int>>
    /** the descriptor table of the process */
    var open: set<int>
    /** the table of allowed descriptors was written outside its bounds */
    var tableHarmed: bool

    constructor (open: set<int>, fdsToIgnore: Option<seq<int>>)
      ensures this.open == open && this.fdsToIgnore == fdsToIgnore && pid == -1
      ensures !appFork && !postSpecialize && !skipSanitization && allowed == {} && exempted == [] && !tableHarmed
    {
      this.open, this.fdsToIgnore, pid := open, fdsToIgnore, -1;
      appFork, postSpecialize, skipSanitization, allowed, exempted, tableHarmed := false, false, false, {}, [], false;
    }

    /**
     In the child, descriptors beyond the table of 1024 are closed and the others are recorded as allowed. The table is
     written outside its bounds exactly if all its descriptors were open; otherwise exactly those below 1024 are left
     and recorded.
     */
    method ForkPre(forked: int, f: Fork)
      requires forked == 0 && !skipSanitization ==> Possible(f) && f.open == open
      modifies this`pid, this`allowed, this`open, this`exempted, this`tableHarmed
      ensures pid == forked
      ensures forked != 0 || skipSanitization ==>
                allowed == old(allowed) && open == old(open) && exempted == old(exempted) &&
                  tableHarmed == old(tableHarmed)
      ensures forked == 0 && !skipSanitization ==>
                && open == OpenAtFork(f) && allowed == old(allowed) + Listed(f.entries) - {f.dir}
                && (tableHarmed <==> old(tableHarmed) || Full(old(open)))
                && exempted == (if Full(old(open)) then f.garbled else old(exempted))
      ensures forked == 0 && !skipSanitization && !Full(old(open)) ==>
                open == Below(old(open)) && allowed == old(allowed) - {f.dir} + Below(old(open))
    {
      pid := forked;
      if pid != 0 || skipSanitization {
        return;
      }
      var dir, entries := f.dir, f.entries;
      open := open + {dir};
      for i := 0 to |entries|
        invariant pid == forked && exempted == old(exempted) && tableHarmed == old(tableHarmed)
        invariant allowed == old(allowed) + set fd | fd in entries[..i] && InRange(fd)
        invariant open == old(open) + {dir} - set fd | fd in entries[..i] && !InRange(fd)
      {
        assert entries[..i + 1] == entries[..i] + [entries[i]];
        var fd := entries[i];
        if fd < 0 || fd >= MAX_FD_SIZE {
          open := open - {fd};
        } else {
          allowed := allowed + {fd};
        }
      }
      assert entries[..|entries|] == entries;
      BeyondTableIff(f.open, f.dir);
      allowed := allowed - {dir};
      if dir >= MAX_FD_SIZE {
        tableHarmed, exempted := true, f.garbled;
      }
      open := open - {dir};
      if !Full(f.open) {
        WholeFork(f);
      }
    }

    method ExemptFd(fd: int) returns (granted: bool)
      modifies this`exempted
      ensures granted <==> postSpecialize || skipSanitization || appFork
      ensures exempted == old(exempted) + (if !postSpecialize && !skipSanitization && appFork then [fd] else [])
    {
      if postSpecialize || skipSanitization {
        return true;
      }
      if !appFork {
        return false;
      }
      exempted := exempted + [fd];
      return true;
    }

    /** Module code runs: it opens, closes and exempts. */
    method RunModules(actions: seq<Action>) returns (allGranted: bool)
      modifies this`open, this`exempted
      ensures open == OpenAfter(old(open), actions)
      ensures !postSpecialize && !skipSanitization && appFork ==>
          allGranted && exempted == old(exempted) + Requests(actions)
    {
      allGranted := true;
      for i := 0 to |actions|
        invariant open == OpenAfter(old(open), actions[..i])
        invariant !postSpecialize && !skipSanitization && appFork ==>
                    allGranted && exempted == old(exempted) + Requests(actions[..i])
      {
        assert actions[..i + 1][..i] == actions[..i];
        match actions[i] {
          case Opens(fd) => open := open + {fd};
          case Closes(fd) => open := open - {fd};
          case Exempts(fd) =>
            var granted := ExemptFd(fd);
            allGranted := allGranted && granted;
        }
      }
      assert actions[..|actions|] == actions;
    }

    /** `update_fd_array`: the new array, with the first `off` entries still to be filled in. */
    method UpdateFdArray(off: nat, arrayMade: bool) returns (made: Option<seq<int>>)
      modifies this`allowed, this`fdsToIgnore, this`skipSanitization
      ensures exempted == [] || !arrayMade ==>
                made == None && allowed == old(allowed) && fdsToIgnore == old(fdsToIgnore) &&
                  skipSanitization == old(skipSanitization)
      ensures exempted != [] && arrayMade ==>
                && made.Some? && |made.value| == off + |exempted| && made.value[off..] == exempted
                && fdsToIgnore == made && allowed == old(allowed) + Listed(exempted) && skipSanitization
    {
      if exempted == [] || !arrayMade {
        return None;
      }
      var values := seq(off, _ => 0) + exempted;
      for i := 0 to |exempted|
        invariant allowed == old(allowed) + Listed(exempted[..i])
      {
        assert exempted[..i + 1] == exempted[..i] + [exempted[i]];
        if InRange(exempted[i]) {
          allowed := allowed + {exempted[i]};
        }
      }
      assert exempted[..|exempted|] == exempted;
      fdsToIgnore := Some(values);
      skipSanitization := true;
      return Some(values);
    }

    /** The first half of `sanitize_fds`: what may stay open, and the array handed on to the original method. */
    method CollectAllowed(arrayMade: bool)
      modifies this`allowed, this`fdsToIgnore, this`skipSanitization
      ensures appFork ==>
                && allowed == Allowed(old(allowed), old(fdsToIgnore), exempted, arrayMade)
                && fdsToIgnore == IgnoredAfter(old(fdsToIgnore), exempted, arrayMade)
      ensures appFork ==> OldThenExempted(old(fdsToIgnore), exempted, arrayMade, fdsToIgnore)
      ensures !appFork ==> allowed == old(allowed) && fdsToIgnore == old(fdsToIgnore)
    {
      IgnoredAfterIs(fdsToIgnore, exempted, arrayMade);
      if !appFork {
        return;
      }
      if fdsToIgnore.Some? {
        var arr := fdsToIgnore.value;
        for i := 0 to |arr|
          invariant allowed == old(allowed) + Listed(arr[..i]) && fdsToIgnore == old(fdsToIgnore)
        {
          assert arr[..i + 1] == arr[..i] + [arr[i]];
          if InRange(arr[i]) {
            allowed := allowed + {arr[i]};
          }
        }
        assert arr[..|arr|] == arr;
        var made := UpdateFdArray(|arr|, arrayMade);
        if made.Some? {
          fdsToIgnore := Some(arr + made.value[|arr|..]);
        }
      } else {
        var made := UpdateFdArray(0, arrayMade);
        if made.Some? {
          assert made.value[0..] == made.value == [] + exempted;
        }
      }
    }

    /** The sweep closes every listed descriptor that is not allowed. */
    method Sweep(dir: int, entries: seq<int>)
      requires Listing(entries, open, dir)
      modifies this`open
      ensures open == Kept(old(open), allowed)
    {
      open := open + {dir};
      for i := 0 to |entries|
        invariant open == old(open) + {dir} - Rejected(entries[..i], allowed, dir)
      {
        assert entries[..i + 1] == entries[..i] + [entries[i]];
        var fd := entries[i];
        if (fd < 0 || fd >= MAX_FD_SIZE || fd !in allowed) && fd != dir {
          open := open - {fd};
        }
      }
      assert entries[..|entries|] == entries;
      open := open - {dir};
      RejectedAreGone(old(open), entries, allowed, dir);
    }

    method SanitizeFds(arrayMade: bool, dir: int, entries: seq<int>)
      requires !skipSanitization && pid == 0 ==> Listing(entries, open, dir)
      modifies this`allowed, this`fdsToIgnore, this`skipSanitization, this`open
      ensures old(skipSanitization) ==> open == old(open) && fdsToIgnore == old(fdsToIgnore)
      ensures !old(skipSanitization) && appFork ==>
                && allowed == Allowed(old(allowed), old(fdsToIgnore), exempted, arrayMade)
                && fdsToIgnore == IgnoredAfter(old(fdsToIgnore), exempted, arrayMade)
      ensures !old(skipSanitization) && !appFork ==> allowed == old(allowed) && fdsToIgnore == old(fdsToIgnore)
      ensures !old(skipSanitization) ==>
                open == if pid == 0 then Kept(old(open), allowed) else old(open)
    {
      if skipSanitization {
        return;
      }
      CollectAllowed(arrayMade);
      if pid != 0 {
        return;
      }
      Sweep(dir, entries);
    }

    /** What follows the fork in the child: the modules run, then the sweep. */
    method SpecializeInChild(actions: seq<Action>, arrayMade: bool, sweepDir: int, sweepEntries: seq<int>)
      requires pid == 0 && appFork && !skipSanitization && !postSpecialize
      requires Listing(sweepEntries, OpenAfter(open, actions), sweepDir)
      modifies this`allowed, this`fdsToIgnore, this`skipSanitization, this`open, this`exempted
      ensures exempted == old(exempted) + Requests(actions)
      ensures fdsToIgnore == IgnoredAfter(old(fdsToIgnore), exempted, arrayMade)
      ensures open == Kept(OpenAfter(old(open), actions), Allowed(old(allowed), old(fdsToIgnore), exempted, arrayMade))
    {
      var _ := RunModules(actions);
      SanitizeFds(arrayMade, sweepDir, sweepEntries);
    }

    /** The child from the fork on; `logFd` has been put on the list of exempted descriptors. */
    method ForkAndSpecializeInChild(
      logFd: int, f: Fork, actions: seq<Action>, arrayMade: bool, sweepDir: int, sweepEntries: seq<int>)
      requires appFork && !skipSanitization && !postSpecialize && allowed == {} && exempted == LogList(logFd)
      requires Possible(f) && f.open == open && !tableHarmed
      requires Listing(sweepEntries, OpenAfter(OpenAtFork(f), actions), sweepDir)
      modifies this
      ensures tableHarmed <==> Full(f.open)
      ensures exempted == Exempted(f, logFd, actions)
      ensures fdsToIgnore == IgnoredAfter(old(fdsToIgnore), Exempted(f, logFd, actions), arrayMade)
      ensures open == ChildOpen(f, old(fdsToIgnore), Exempted(f, logFd, actions), actions, arrayMade)
    {
      ForkPre(0, f);
      assert allowed == Recorded(f);
      SpecializeInChild(actions, arrayMade, sweepDir, sweepEntries);
    }

    /**
     The outcome in the child for every fork, and with it the promise whenever some descriptor below 1024 is free at the
     fork; `ConservedIff` says that it is not to be had otherwise. The parent keeps its descriptors.
     */
    method NativeForkAndSpecializePre(
      logFd: int, forked: int, f: Fork, actions: seq<Action>, arrayMade: bool, sweepDir: int, sweepEntries: seq<int>)
      requires !skipSanitization && !postSpecialize && allowed == {} && exempted == [] && !tableHarmed
      requires forked == 0 ==> Possible(f) && f.open == open
      requires forked == 0 ==> Listing(sweepEntries, OpenAfter(OpenAtFork(f), actions), sweepDir)
      modifies this
      ensures forked != 0 ==>
                open == old(open) && fdsToIgnore == IgnoredAfter(old(fdsToIgnore), LogList(logFd), arrayMade)
      ensures forked == 0 ==>
                && (tableHarmed <==> Full(f.open))
                && fdsToIgnore == IgnoredAfter(old(fdsToIgnore), Exempted(f, logFd, actions), arrayMade)
                && open == ChildOpen(f, old(fdsToIgnore), Exempted(f, logFd, actions), actions, arrayMade)
      ensures forked == 0 && !Full(f.open) ==>
                Conserved(f.open, old(fdsToIgnore), logFd, actions, arrayMade, open, fdsToIgnore)
    {
      appFork := true;
      if logFd != -1 {
        exempted := exempted + [logFd];
      }
      assert exempted == LogList(logFd);
      if forked == 0 {
        ForkAndSpecializeInChild(logFd, f, actions, arrayMade, sweepDir, sweepEntries);
        OutcomeIsConserved(f, old(fdsToIgnore), logFd, actions, arrayMade, open, fdsToIgnore);
      } else {
        ForkPre(forked, f);
        SanitizeFds(arrayMade, sweepDir, sweepEntries);
      }
    }
  }

  /** Some action from place `i` on closes the descriptor. */
  ghost predicate ClosedFrom(fd: nat, actions: seq<Action>, i: nat)
  {
    exists j :: i <= j < |actions| && actions[j] == Closes(fd)
  }

  /** Some action opens the descriptor and none after it closes it. */
  ghost predicate LeftOpen(fd: nat, actions: seq<Action>)
  {
    exists i :: 0 <= i < |actions| && actions[i] == Opens(fd) && !ClosedFrom(fd, actions, i)
  }

  /**
   Module code leaves open exactly the descriptors it opened and did not close after that, and those open before that it
   did not close.
   */
  lemma {:induction false} ModulesTouchOnlyTheirs(open: set<int>, actions: seq<Action>, fd: nat)
    ensures fd in OpenAfter(open, actions) <==>
            LeftOpen(fd, actions) || (fd in open && !ClosedFrom(fd, actions, 0))
  {
    if actions == [] {
    } else {
      var n := |actions| - 1;
      var before := actions[..n];
      ModulesTouchOnlyTheirs(open, before, fd);
      assert actions == before + [actions[n]];
      LastActionCounts(fd, before, actions[n]);
    }
  }

  lemma LastActionCounts(fd: nat, before: seq<Action>, last: Action)
    ensures
      var actions := before + [last];
      && (ClosedFrom(fd, actions, 0) <==> ClosedFrom(fd, before, 0) || last == Closes(fd))
      && (LeftOpen(fd, actions) <==> last == Opens(fd) || (LeftOpen(fd, before) && last != Closes(fd)))
  {
    var actions := before + [last];
    var n := |before|;
    assert actions[n] == last;
    forall i | 0 <= i <= n
      ensures ClosedFrom(fd, actions, i) <==> ClosedFrom(fd, before, i) || last == Closes(fd)
    {
      if ClosedFrom(fd, before, i) {
        var j :| i <= j < n && before[j] == Closes(fd);
        assert actions[j] == Closes(fd);
      }
    }
    if LeftOpen(fd, before) {
      var i :| 0 <= i < n && before[i] == Opens(fd) && !ClosedFrom(fd, before, i);
      assert actions[i] == Opens(fd);
    }
  }
}
