/**
 * The library handle registry (src/library.rs). A `Library` owns a
 * non-empty list of candidate library names and, once one of them has been
 * opened, the handle of that library for the rest of its life. Its one
 * operation looks a symbol up in that library and swaps the address into a
 * caller's slot. A `CloseableLibrary` additionally records, for every swap,
 * the slot and the value it held, so that `close` can put those values back
 * before it closes the handle.
 *
 * Slots are the `'static AtomicPtr` cells of the program; here they are the
 * cells of one array, and a slot is an index into it.
 */
module Registry {
  import opened Wrappers
  import opened Common

  /** The null address: what a failed symbol lookup yields. */
  const NULL: Addr := 0

  /** An opened library, as the loader identifies it. */
  datatype Handle = Handle(id: nat)

  /**
   * The host loader as it answers at the moment of a call. `loadLibrary`
   * gives `None` where the source's loader returns an invalid handle,
   * `findSymbol` gives `NULL` for a missing symbol, `close` gives the result
   * of closing a handle.
   */
  datatype Loader = Loader(
    loadLibrary: Name -> Option<Handle>,
    findSymbol: (Handle, Sym) -> Addr,
    close: Handle -> Result<(), IoError>)

  // ---------------------------------------------------------------------
  // Opening: the first candidate that yields a valid handle
  // ---------------------------------------------------------------------

  /** The position and handle of the first candidate that opens, if any does. */
  function FirstOpen(ld: Loader, libs: seq<Name>): (r: Option<(nat, Handle)>)
    ensures r.Some? ==> r.value.0 < |libs| && ld.loadLibrary(libs[r.value.0]) == Some(r.value.1)
    ensures r.Some? ==> forall j :: 0 <= j < r.value.0 ==> ld.loadLibrary(libs[j]).None?
    ensures r.None? ==> forall j :: 0 <= j < |libs| ==> ld.loadLibrary(libs[j]).None?
  {
    if libs == [] then None
    else match ld.loadLibrary(libs[0])
      case Some(h) => Some((0, h))
      case None =>
        match FirstOpen(ld, libs[1..])
        case None => None
        case Some((i, h)) => Some((i + 1, h))
  }

  /** A candidate that opens after only failing ones is the first one that opens. */
  lemma {:induction false} FirstOpenAt(ld: Loader, libs: seq<Name>, i: nat, h: Handle)
    requires i < |libs| && ld.loadLibrary(libs[i]) == Some(h)
    requires forall j :: 0 <= j < i ==> ld.loadLibrary(libs[j]).None?
    ensures FirstOpen(ld, libs) == Some((i, h))
  {
    if i > 0 {
      FirstOpenAt(ld, libs[1..], i - 1, h);
    }
  }

  /** The handle the open phase caches when none was cached before. */
  function OpenedHandle(ld: Loader, libs: seq<Name>): (h: Option<Handle>)
    ensures h.Some? <==> exists j :: 0 <= j < |libs| && ld.loadLibrary(libs[j]).Some?
  {
    match FirstOpen(ld, libs)
    case Some((_, h)) => Some(h)
    case None => None
  }

  /**
   * The candidates the open phase passes to the loader, in order: every
   * one up to and including the first that opens, and none after it.
   */
  function Attempted(ld: Loader, libs: seq<Name>): (names: seq<Name>)
    ensures names <= libs
    ensures |libs| > 0 ==> |names| > 0
    ensures forall j :: 0 <= j < |names| - 1 ==> ld.loadLibrary(names[j]).None?
    ensures |names| < |libs| ==> ld.loadLibrary(names[|names| - 1]).Some?
    ensures names != [] && ld.loadLibrary(names[|names| - 1]).Some? ==>
              OpenedHandle(ld, libs) == ld.loadLibrary(names[|names| - 1])
  {
    match FirstOpen(ld, libs)
    case Some((i, _)) => libs[..i + 1]
    case None => libs
  }

  // ---------------------------------------------------------------------
  // Library
  // ---------------------------------------------------------------------

  class Library {
    /** The candidate names, highest priority first. */
    const libs: seq<Name>
    /** The slot cells the registry may be asked to swap into. */
    const slots: array<Addr>
    /** The cached handle (`hlib`). */
    var handle: Option<Handle>
    /** Every name passed to the loader's `load_library`, in call order. */
    ghost var loadCalls: seq<Name>

    /** `Library::new`: the candidate list must not be empty. */
    constructor (libs: seq<Name>, slots: array<Addr>)
      requires |libs| > 0
      ensures this.libs == libs && this.slots == slots
      ensures handle == None && loadCalls == []
    {
      this.libs := libs;
      this.slots := slots;
      handle := None;
      loadCalls := [];
    }

    /**
     * `find_and_swap`: open the first candidate that opens unless a handle
     * is already cached, look `sym` up in the cached library, and on success
     * swap its address into `slots[slot]`, returning what the slot held.
     */
    method FindAndSwap(ld: Loader, sym: Sym, slot: nat) returns (prev: Option<Addr>)
      requires slot < slots.Length
      modifies this, slots
      ensures old(handle).Some? ==> handle == old(handle) && loadCalls == old(loadCalls)
      ensures old(handle).None? ==>
                handle == OpenedHandle(ld, libs) && loadCalls == old(loadCalls) + Attempted(ld, libs)
      ensures prev.Some? <==> handle.Some? && ld.findSymbol(handle.value, sym) != NULL
      ensures prev.Some? ==>
                prev.value == old(slots[slot]) &&
                slots[..] == old(slots[..])[slot := ld.findSymbol(handle.value, sym)]
      ensures prev.None? ==> slots[..] == old(slots[..])
    {
      if handle.None? {
        var i := 0;
        while i < |libs|
          invariant 0 <= i <= |libs|
          invariant handle.None? && slots[..] == old(slots[..])
          invariant loadCalls == old(loadCalls) + libs[..i]
          invariant forall j :: 0 <= j < i ==> ld.loadLibrary(libs[j]).None?
        {
          var h := ld.loadLibrary(libs[i]);
          loadCalls := loadCalls + [libs[i]];
          if h.Some? {
            FirstOpenAt(ld, libs, i, h.value);
            handle := h;
            break;
          }
          i := i + 1;
        }
      }

      if handle.Some? {
        var addr := ld.findSymbol(handle.value, sym);
        if addr == NULL {
          prev := None;
        } else {
          prev := Some(slots[slot]);
          slots[slot] := addr;
        }
      } else {
        prev := None;
      }
    }
  }

  // ---------------------------------------------------------------------
  // Undo log replay
  // ---------------------------------------------------------------------

  /** An undo-log entry: a slot and the value it held before a swap. */
  type Entry = (nat, Addr)

  predicate InRange(log: seq<Entry>, n: nat)
  {
    forall k :: 0 <= k < |log| ==> log[k].0 < n
  }

  /** The slots after storing every logged value back, oldest entry first (as `close` does). */
  function Replay(cells: seq<Addr>, log: seq<Entry>): (r: seq<Addr>)
    requires InRange(log, |cells|)
    ensures |r| == |cells|
    decreases |log|
  {
    if log == [] then cells
    else
      var e := log[|log| - 1];
      Replay(cells, log[..|log| - 1])[e.0 := e.1]
  }

  /** The value of the newest entry for slot `s`, if the log has one. */
  function LastFor(log: seq<Entry>, s: nat): (v: Option<Addr>)
    ensures v.None? ==> forall k :: 0 <= k < |log| ==> log[k].0 != s
    ensures v.Some? ==> exists k :: 0 <= k < |log| && log[k] == (s, v.value) &&
                           forall k' :: k < k' < |log| ==> log[k'].0 != s
    decreases |log|
  {
    if log == [] then None
    else if log[|log| - 1].0 == s then Some(log[|log| - 1].1)
    else LastFor(log[..|log| - 1], s)
  }

  /**
   * After a replay, a slot holds the value of its NEWEST log entry; a slot
   * the log does not mention keeps its value.
   */
  lemma {:induction false} ReplayNewestEntryWins(cells: seq<Addr>, log: seq<Entry>, s: nat)
    requires InRange(log, |cells|) && s < |cells|
    ensures Replay(cells, log)[s] == match LastFor(log, s) case Some(v) => v case None => cells[s]
    decreases |log|
  {
    if log != [] {
      ReplayNewestEntryWins(cells, log[..|log| - 1], s);
    }
  }

  // ---------------------------------------------------------------------
  // CloseableLibrary
  // ---------------------------------------------------------------------

  class CloseableLibrary {
    const inner: Library
    /** The undo log (`reset_vec`). */
    var resetLog: seq<Entry>

    ghost predicate Valid()
      reads this
    {
      InRange(resetLog, inner.slots.Length)
    }

    /** `CloseableLibrary::new`: the candidate list must not be empty. */
    constructor (libs: seq<Name>, slots: array<Addr>)
      requires |libs| > 0
      ensures Valid() && fresh(inner)
      ensures inner.libs == libs && inner.slots == slots
      ensures inner.handle == None && inner.loadCalls == [] && resetLog == []
    {
      inner := new Library(libs, slots);
      resetLog := [];
    }

    /**
     * `find_and_swap`: the inner registry's operation, plus one undo-log
     * entry (the slot and its previous value) when it succeeds.
     */
    method FindAndSwap(ld: Loader, sym: Sym, slot: nat) returns (prev: Option<Addr>)
      requires Valid() && slot < inner.slots.Length
      modifies this, inner, inner.slots
      ensures Valid()
      ensures old(inner.handle).Some? ==> inner.handle == old(inner.handle) && inner.loadCalls == old(inner.loadCalls)
      ensures old(inner.handle).None? ==>
                inner.handle == OpenedHandle(ld, inner.libs) &&
                inner.loadCalls == old(inner.loadCalls) + Attempted(ld, inner.libs)
      ensures prev.Some? <==> inner.handle.Some? && ld.findSymbol(inner.handle.value, sym) != NULL
      ensures prev.Some? ==>
                prev.value == old(inner.slots[slot]) &&
                inner.slots[..] == old(inner.slots[..])[slot := ld.findSymbol(inner.handle.value, sym)] &&
                resetLog == old(resetLog) + [(slot, prev.value)]
      ensures prev.None? ==> inner.slots[..] == old(inner.slots[..]) && resetLog == old(resetLog)
    {
      prev := inner.FindAndSwap(ld, sym, slot);
      if prev.Some? {
        resetLog := resetLog + [(slot, prev.value)];
      }
    }

    /**
     * `close`: with no handle cached, an `InvalidInput` error and nothing
     * changes. Otherwise take the handle (leaving none cached), store every
     * logged value back into its slot in log order, empty the log, and
     * return what closing the handle returns.
     */
    method Close(ld: Loader) returns (r: Result<(), IoError>)
      requires Valid()
      modifies this, inner, inner.slots
      ensures Valid()
      ensures inner.loadCalls == old(inner.loadCalls)
      ensures old(inner.handle).None? ==>
                r == Err(IoError(InvalidInput, "`CloseableLibrary` is uninitialized.")) &&
                inner.handle == None && resetLog == old(resetLog) && inner.slots[..] == old(inner.slots[..])
      ensures old(inner.handle).Some? ==>
                r == ld.close(old(inner.handle).value) &&
                inner.handle == None && resetLog == [] &&
                inner.slots[..] == Replay(old(inner.slots[..]), old(resetLog))
    {
      var taken := inner.handle;
      inner.handle := None;
      if taken.Some? {
        var log := resetLog;
        var i := 0;
        while i < |log|
          invariant 0 <= i <= |log| && InRange(log[..i], inner.slots.Length)
          invariant inner.slots[..] == Replay(old(inner.slots[..]), log[..i])
          invariant inner.handle == None && inner.loadCalls == old(inner.loadCalls)
        {
          var (pfn, initPfn) := log[i];
          assert log[..i + 1][..i] == log[..i];
          inner.slots[pfn] := initPfn;
          i := i + 1;
        }
        assert log[..i] == log;
        resetLog := [];
        r := ld.close(taken.value);
      } else {
        r := Err(IoError(InvalidInput, "`CloseableLibrary` is uninitialized."));
      }
    }
  }

  // ---------------------------------------------------------------------
  // Rollback: what the undo log is for
  // ---------------------------------------------------------------------

  /**
   * Successive successful swaps of `binds[k].1` into slot `binds[k].0`
   * starting from `cells`: the slots afterwards, and the undo log a
   * `CloseableLibrary` records for them.
   */
  function Bind(cells: seq<Addr>, binds: seq<Entry>): (r: (seq<Addr>, seq<Entry>))
    requires InRange(binds, |cells|)
    ensures |r.0| == |cells| && |r.1| == |binds| && InRange(r.1, |cells|)
    decreases |binds|
  {
    if binds == [] then (cells, [])
    else
      var (c, log) := Bind(cells, binds[..|binds| - 1]);
      var b := binds[|binds| - 1];
      (c[b.0 := b.1], log + [(b.0, c[b.0])])
  }

  /** Store the logged values back, NEWEST entry first. */
  function Rollback(cells: seq<Addr>, log: seq<Entry>): (r: seq<Addr>)
    requires InRange(log, |cells|)
    ensures |r| == |cells|
    decreases |log|
  {
    if log == [] then cells
    else
      var e := log[|log| - 1];
      Rollback(cells[e.0 := e.1], log[..|log| - 1])
  }

  /** Undoing the log newest first restores every slot to its value before the first swap. */
  lemma {:induction false} RollbackRestores(cells: seq<Addr>, binds: seq<Entry>)
    requires InRange(binds, |cells|)
    ensures Rollback(Bind(cells, binds).0, Bind(cells, binds).1) == cells
    decreases |binds|
  {
    if binds != [] {
      var front := binds[..|binds| - 1];
      var (c, log) := Bind(cells, front);
      var b := binds[|binds| - 1];
      var log' := log + [(b.0, c[b.0])];
      assert log'[..|log'| - 1] == log;
      assert c[b.0 := b.1][b.0 := c[b.0]] == c;
      RollbackRestores(cells, front);
    }
  }

  /** No slot is swapped twice. */
  predicate SlotsDistinct(binds: seq<Entry>)
  {
    forall j, k :: 0 <= j < k < |binds| ==> binds[j].0 != binds[k].0
  }

  /** Swaps into other slots leave slot `s` alone. */
  lemma {:induction false} BindElsewhere(cells: seq<Addr>, binds: seq<Entry>, s: nat)
    requires InRange(binds, |cells|) && s < |cells|
    requires forall k :: 0 <= k < |binds| ==> binds[k].0 != s
    ensures Bind(cells, binds).0[s] == cells[s]
    decreases |binds|
  {
    if binds != [] {
      BindElsewhere(cells, binds[..|binds| - 1], s);
    }
  }

  /** Replaying a log that never mentions slot `s` commutes with a store into `s`. */
  lemma {:induction false} ReplayElsewhere(cells: seq<Addr>, log: seq<Entry>, s: nat, v: Addr)
    requires InRange(log, |cells|) && s < |cells|
    requires forall k :: 0 <= k < |log| ==> log[k].0 != s
    ensures Replay(cells[s := v], log) == Replay(cells, log)[s := v]
    decreases |log|
  {
    if log != [] {
      ReplayElsewhere(cells, log[..|log| - 1], s, v);
    }
  }

  /**
   * When no slot is swapped twice, the as-written replay does restore every
   * slot to its value before its swap.
   */
  lemma {:induction false} ReplayRestoresDistinctSlots(cells: seq<Addr>, binds: seq<Entry>)
    requires InRange(binds, |cells|) && SlotsDistinct(binds)
    ensures Replay(Bind(cells, binds).0, Bind(cells, binds).1) == cells
    decreases |binds|
  {
    if binds != [] {
      var front := binds[..|binds| - 1];
      var (c, log) := Bind(cells, front);
      var b := binds[|binds| - 1];
      var log' := log + [(b.0, c[b.0])];
      assert log'[..|log'| - 1] == log;
      assert forall k :: 0 <= k < |front| ==> front[k].0 != b.0 by {
        forall k | 0 <= k < |front| ensures front[k].0 != b.0 {
          assert front[k] == binds[k];
        }
      }
      BindLogSlots(cells, front);
      ReplayElsewhere(c, log, b.0, b.1);
      BindElsewhere(cells, front, b.0);
      ReplayRestoresDistinctSlots(cells, front);
    }
  }

  /** The undo log names the swapped slots, in swap order. */
  lemma {:induction false} BindLogSlots(cells: seq<Addr>, binds: seq<Entry>)
    requires InRange(binds, |cells|)
    ensures forall k :: 0 <= k < |binds| ==> Bind(cells, binds).1[k].0 == binds[k].0
    decreases |binds|
  {
    if binds != [] {
      var front := binds[..|binds| - 1];
      BindLogSlots(cells, front);
      assert forall k :: 0 <= k < |front| ==> front[k] == binds[k];
    }
  }

  /**
   * The as-written order loses the original value of a slot swapped twice:
   * two swaps into slot 0, which held 7, record (0, 7) then (0, 200); the
   * replay ends with 200 in the slot where rollback gives back 7.
   */
  lemma ReplayOfDoubleBindKeepsFirstBinding()
    ensures Bind([7], [(0, 200), (0, 200)]).1 == [(0, 7), (0, 200)]
    ensures Replay(Bind([7], [(0, 200), (0, 200)]).0, Bind([7], [(0, 200), (0, 200)]).1) == [200]
    ensures Rollback(Bind([7], [(0, 200), (0, 200)]).0, Bind([7], [(0, 200), (0, 200)]).1) == [7]
  {
    var log: seq<Entry> := [(0, 7), (0, 200)];
    assert log[..1] == [(0, 7)];
    assert log[..1][..0] == [];
    var binds: seq<Entry> := [(0, 200), (0, 200)];
    assert binds[..1] == [(0, 200)];
    assert binds[..1][..0] == [];
  }

  /**
   * The same through the registry itself: a slot holding 7 is swapped twice
   * with a symbol at 200, and after `close` it holds 200, an address in the
   * library just closed, not 7.
   */
  method DoubleSwapThenClose() returns (restored: Addr)
    ensures restored == 200
  {
    var cells := new Addr[1];
    cells[0] := 7;
    var lib := new CloseableLibrary(["libfoo.so"], cells);
    var ld := Loader(name => Some(Handle(1)), (h, sym) => 200, h => Ok(()));
    FirstOpenAt(ld, ["libfoo.so"], 0, Handle(1));
    var first := lib.FindAndSwap(ld, "foo", 0);
    assert lib.inner.handle == Some(Handle(1)) && first == Some(7);
    var second := lib.FindAndSwap(ld, "foo", 0);
    assert second == Some(200);
    var log := lib.resetLog;
    assert log == [(0, 7), (0, 200)];
    assert log[..1] == [(0, 7)] && log[..1][..0] == log[..0];
    assert Replay(cells[..], log) == [200];
    var r := lib.Close(ld);
    restored := cells[0];
  }
  /**
   * The close/reopen cycle for any loader: one `find_and_swap`, then
   * `close`, then another `find_and_swap` on the same registry. `close`
   * restores the slot to its value before the swap and leaves no handle
   * cached, so the second `find_and_swap` opens the candidates afresh.
   */
  method SwapCloseSwap(ld: Loader, libs: seq<Name>, slots: array<Addr>, sym: Sym, slot: nat)
    returns (lib: CloseableLibrary, first: Option<Addr>, closed: Result<(), IoError>, restored: Addr, again: Option<Addr>)
    requires |libs| > 0 && slot < slots.Length
    modifies slots
    ensures fresh(lib) && lib.inner.libs == libs && lib.inner.slots == slots
    ensures first.Some? <==> OpenedHandle(ld, libs).Some? && ld.findSymbol(OpenedHandle(ld, libs).value, sym) != NULL
    ensures first.Some? ==> first.value == old(slots[slot])
    ensures OpenedHandle(ld, libs).Some? ==> closed == ld.close(OpenedHandle(ld, libs).value)
    ensures OpenedHandle(ld, libs).None? ==> closed == Err(IoError(InvalidInput, "`CloseableLibrary` is uninitialized."))
    ensures restored == old(slots[slot])
    ensures again == first
    ensures lib.inner.loadCalls == Attempted(ld, libs) + Attempted(ld, libs)
    ensures lib.inner.handle == OpenedHandle(ld, libs)
  {
    lib := new CloseableLibrary(libs, slots);
    first := lib.FindAndSwap(ld, sym, slot);
    closed := lib.Close(ld);
    restored := slots[slot];
    again := lib.FindAndSwap(ld, sym, slot);
  }
}
