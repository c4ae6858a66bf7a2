/**
 * The lazy binding engine (src/lazyfn.rs). A `LazyFn` starts out pointing at
 * a placeholder (the thunk). Its first `try_link_with` resolves the symbol
 * once, through the Vulkan loader or through the system loader over an
 * ordered list of candidate libraries, and records the outcome: the resolved
 * address, which the pointer then designates, or a permanent error. Every
 * later call answers from that record without consulting a loader.
 */
module LazyBinding {
  import opened Wrappers
  import opened Common

  /** Where `try_link` looks the symbol up. */
  datatype LinkType = Vulkan | System(libs: seq<Name>)

  /**
   * The crate's error type: `ListNotLoaded` carries one message per
   * candidate; `Failure` stands for every error a loader reports.
   */
  datatype DylinkError = Failure(reason: string) | ListNotLoaded(messages: seq<string>)

  /**
   * The loaders a resolution consults: `general_loader` for the linker in
   * use, `vulkan_loader`, and `to_string` of an error.
   */
  datatype Linker = Linker(
    general: (Name, Sym) -> Result<Addr, DylinkError>,
    vulkan: Sym -> Result<Addr, DylinkError>,
    describe: DylinkError -> string)

  /** One call into a loader. */
  datatype LoaderCall = GeneralCall(lib: Name, sym: Sym) | VulkanCall(sym: Sym)

  /** What `addr_ptr` designates: the thunk, or the instance's own `addr` cell. */
  datatype Cell = ThunkCell | AddrCell

  // ---------------------------------------------------------------------
  // Resolution, as a function of the link type and the loaders
  // ---------------------------------------------------------------------

  /** The outcome of the system search: the first address found, and the failures before it. */
  datatype Search = Search(found: Option<Addr>, failures: seq<DylinkError>)

  /** The candidates tried in order until the first one that yields the symbol. */
  function SearchSystem(libs: seq<Name>, fnName: Sym, general: (Name, Sym) -> Result<Addr, DylinkError>): (s: Search)
    ensures |s.failures| <= |libs|
    ensures forall k :: 0 <= k < |s.failures| ==> general(libs[k], fnName) == Err(s.failures[k])
    ensures s.found.Some? ==> |s.failures| < |libs| && general(libs[|s.failures|], fnName) == Ok(s.found.value)
    ensures s.found.None? ==> |s.failures| == |libs|
  {
    if libs == [] then Search(None, [])
    else match general(libs[0], fnName)
      case Ok(a) => Search(Some(a), [])
      case Err(e) =>
        var rest := SearchSystem(libs[1..], fnName, general);
        Search(rest.found, [e] + rest.failures)
  }

  /** The messages of `errors`, in order. */
  function Messages(errors: seq<DylinkError>, describe: DylinkError -> string): (ms: seq<string>)
    ensures |ms| == |errors|
  {
    seq(|errors|, k requires 0 <= k < |errors| => describe(errors[k]))
  }

  /** The outcome of the first `try_link_with`. */
  function Resolve(linkTy: LinkType, fnName: Sym, ln: Linker): Result<Addr, DylinkError>
  {
    match linkTy
    case Vulkan => ln.vulkan(fnName)
    case System(libs) =>
      var s := SearchSystem(libs, fnName, ln.general);
      match s.found
      case Some(a) => Ok(a)
      case None => Err(ListNotLoaded(Messages(s.failures, ln.describe)))
  }

  /** The loader calls the first `try_link_with` makes, in order. */
  function ResolveCalls(linkTy: LinkType, fnName: Sym, ln: Linker): seq<LoaderCall>
  {
    match linkTy
    case Vulkan => [VulkanCall(fnName)]
    case System(libs) =>
      var s := SearchSystem(libs, fnName, ln.general);
      var tried := |s.failures| + (if s.found.Some? then 1 else 0);
      seq(tried, k requires 0 <= k < tried && tried <= |libs| => GeneralCall(libs[k], fnName))
  }

  // ---------------------------------------------------------------------
  // Properties of resolution
  // ---------------------------------------------------------------------

  /**
   * The system path succeeds exactly when some candidate yields the symbol,
   * and then with the address of the FIRST such candidate; the candidates
   * after it are never tried.
   */
  lemma SystemFindsFirst(libs: seq<Name>, fnName: Sym, ln: Linker, i: nat)
    requires i < |libs| && ln.general(libs[i], fnName).Ok?
    requires forall j :: 0 <= j < i ==> ln.general(libs[j], fnName).Err?
    ensures Resolve(System(libs), fnName, ln) == ln.general(libs[i], fnName)
    ensures ResolveCalls(System(libs), fnName, ln) == seq(i + 1, k requires 0 <= k <= i => GeneralCall(libs[k], fnName))
  {
  }

  /**
   * When no candidate yields the symbol, the error is `ListNotLoaded` with
   * one message per candidate, in candidate order, and every candidate was
   * tried.
   */
  lemma SystemFailureListsEveryCandidate(libs: seq<Name>, fnName: Sym, ln: Linker)
    requires forall j :: 0 <= j < |libs| ==> ln.general(libs[j], fnName).Err?
    ensures Resolve(System(libs), fnName, ln).Err?
    ensures Resolve(System(libs), fnName, ln).error.ListNotLoaded?
    ensures |Resolve(System(libs), fnName, ln).error.messages| == |libs|
    ensures forall j :: 0 <= j < |libs| ==>
              Resolve(System(libs), fnName, ln).error.messages[j] == ln.describe(ln.general(libs[j], fnName).error)
    ensures ResolveCalls(System(libs), fnName, ln) == seq(|libs|, k requires 0 <= k < |libs| => GeneralCall(libs[k], fnName))
  {
  }

  /** The Vulkan path consults only the Vulkan loader: the system loader has no say. */
  lemma VulkanIgnoresSystemLoader(fnName: Sym, ln: Linker, general: (Name, Sym) -> Result<Addr, DylinkError>)
    ensures Resolve(Vulkan, fnName, ln) == Resolve(Vulkan, fnName, ln.(general := general)) == ln.vulkan(fnName)
    ensures ResolveCalls(Vulkan, fnName, ln) == [VulkanCall(fnName)]
  {
  }

  // ---------------------------------------------------------------------
  // LazyFn
  // ---------------------------------------------------------------------

  class LazyFn {
    /** The placeholder the instance starts with. */
    const thunk: Addr
    const fnName: Sym
    const linkTy: LinkType
    /** The one-shot guard (`once`) has run. */
    var done: bool
    /** The recorded error, if resolution failed. */
    var status: Option<DylinkError>
    /** The cached value (`addr`). */
    var addr: Addr
    /** What `addr_ptr` designates. */
    var addrPtr: Cell
    /** Every loader call made on behalf of this instance, in order. */
    ghost var calls: seq<LoaderCall>

    /**
     * The pointer designates the cached value exactly when resolution has
     * run and succeeded; until then, and after a failure, the cached value
     * is still the thunk. No error is recorded before resolution.
     */
    ghost predicate Valid()
      reads this
    {
      && (addrPtr == AddrCell <==> done && status.None?)
      && (addrPtr == ThunkCell ==> addr == thunk)
      && (!done ==> status.None?)
    }

    /** `LazyFn::new`: the slot and the cached value hold the thunk; nothing is recorded. */
    constructor (thunk: Addr, fnName: Sym, linkTy: LinkType)
      ensures Valid()
      ensures this.thunk == thunk && this.fnName == fnName && this.linkTy == linkTy
      ensures !done && status == None && addr == thunk && addrPtr == ThunkCell && calls == []
    {
      this.thunk := thunk;
      this.fnName := fnName;
      this.linkTy := linkTy;
      done := false;
      status := None;
      addr := thunk;
      addrPtr := ThunkCell;
      calls := [];
    }

    /**
     * `try_link_with`: the first call resolves and records the outcome; every
     * call, the first included, returns the recorded outcome. Later calls
     * change nothing and consult no loader, whatever linker they are given.
     */
    method TryLinkWith(ln: Linker) returns (r: Result<Addr, DylinkError>)
      requires Valid()
      modifies this
      ensures Valid() && done
      ensures old(done) ==>
                status == old(status) && addr == old(addr) && addrPtr == old(addrPtr) && calls == old(calls)
      ensures !old(done) ==>
                calls == old(calls) + ResolveCalls(linkTy, fnName, ln) &&
                match Resolve(linkTy, fnName, ln)
                case Ok(a) => status == None && addr == a && addrPtr == AddrCell
                case Err(e) => status == Some(e) && addr == thunk && addrPtr == ThunkCell
      ensures r == match status case Some(e) => Err(e) case None => Ok(addr)
    {
      if !done {
        var maybe: Result<Addr, DylinkError>;
        match linkTy {
          case Vulkan =>
            maybe := ln.vulkan(fnName);
            calls := calls + [VulkanCall(fnName)];
          case System(libList) =>
            // `find_map` over the candidates, pushing each failure onto `errors`
            var errors: seq<DylinkError> := [];
            var found: Option<Addr> := None;
            var i := 0;
            ghost var calls0 := calls;
            while i < |libList| && found.None?
              invariant 0 <= i <= |libList|
              invariant found.None? ==> |errors| == i
              invariant found.Some? ==> |errors| == i - 1 && i >= 1 && ln.general(libList[i - 1], fnName) == Ok(found.value)
              invariant forall k :: 0 <= k < |errors| ==> ln.general(libList[k], fnName) == Err(errors[k])
              invariant calls == calls0 + seq(i, k requires 0 <= k < i => GeneralCall(libList[k], fnName))
              invariant status == old(status) && addr == old(addr) && addrPtr == old(addrPtr) && !done
            {
              var res := ln.general(libList[i], fnName);
              calls := calls + [GeneralCall(libList[i], fnName)];
              match res {
                case Ok(a) => found := Some(a);
                case Err(e) => errors := errors + [e];
              }
              i := i + 1;
            }
            SearchSystemIs(libList, fnName, ln.general, found, errors);
            if found.Some? {
              maybe := Ok(found.value);
            } else {
              // the messages of the collected failures, in order
              var err: seq<string> := [];
              for k := 0 to |errors|
                invariant err == Messages(errors[..k], ln.describe)
              {
                err := err + [ln.describe(errors[k])];
              }
              assert errors[..|errors|] == errors;
              maybe := Err(ListNotLoaded(err));
            }
        }
        done := true;
        match maybe {
          case Ok(a) =>
            addr := a;
            addrPtr := AddrCell;
          case Err(e) =>
            status := Some(e);
        }
      }
      match status {
        case None =>
          var f := Load();
          r := Ok(f);
        case Some(e) =>
          r := Err(e);
      }
    }

    /** `try_link`: `try_link_with` with the default linker, which is given here as a parameter. */
    method TryLink(defaultLinker: Linker) returns (r: Result<Addr, DylinkError>)
      requires Valid()
      modifies this
      ensures Valid() && done
      ensures old(done) ==>
                status == old(status) && addr == old(addr) && addrPtr == old(addrPtr) && calls == old(calls)
      ensures !old(done) ==>
                calls == old(calls) + ResolveCalls(linkTy, fnName, defaultLinker) &&
                match Resolve(linkTy, fnName, defaultLinker)
                case Ok(a) => status == None && addr == a && addrPtr == AddrCell
                case Err(e) => status == Some(e) && addr == thunk && addrPtr == ThunkCell
      ensures r == match status case Some(e) => Err(e) case None => Ok(addr)
    {
      r := TryLinkWith(defaultLinker);
    }

    /**
     * `load`: the value `addr_ptr` designates, which is the thunk until a
     * resolution succeeds and the resolved address after.
     */
    method Load() returns (f: Addr)
      requires Valid()
      ensures f == if done && status.None? then addr else thunk
    {
      f := if addrPtr == ThunkCell then thunk else addr;
    }

    /** `Deref`: `load` with relaxed ordering. */
    method Deref() returns (f: Addr)
      requires Valid()
      ensures f == if done && status.None? then addr else thunk
    {
      f := Load();
    }

    /** `into_inner`: the cached value, which is the thunk unless a resolution succeeded. */
    method IntoInner() returns (f: Addr)
      requires Valid()
      ensures f == if done && status.None? then addr else thunk
    {
      f := addr;
    }
  }

  /** The loop's found address and failures are those of the search it performs. */
  lemma {:induction false} SearchSystemIs(libs: seq<Name>, fnName: Sym, general: (Name, Sym) -> Result<Addr, DylinkError>,
                                          found: Option<Addr>, errors: seq<DylinkError>)
    requires |errors| <= |libs|
    requires forall k :: 0 <= k < |errors| ==> general(libs[k], fnName) == Err(errors[k])
    requires found.None? ==> |errors| == |libs|
    requires found.Some? ==> |errors| < |libs| && general(libs[|errors|], fnName) == Ok(found.value)
    ensures SearchSystem(libs, fnName, general) == Search(found, errors)
    decreases |libs|
  {
    if libs != [] {
      match general(libs[0], fnName)
      case Ok(a) =>
      case Err(e) =>
        SearchSystemIs(libs[1..], fnName, general, found, errors[1..]);
    }
  }

  /**
   * One-shot resolution seen from outside: a fresh instance linked twice,
   * with two different linkers, returns the same outcome both times, and
   * only the first call reaches a loader.
   */
  method LinkTwice(thunk: Addr, fnName: Sym, linkTy: LinkType, first: Linker, second: Linker)
    returns (r1: Result<Addr, DylinkError>, r2: Result<Addr, DylinkError>)
    ensures r1 == r2
    ensures r1 == Resolve(linkTy, fnName, first)
  {
    var f := new LazyFn(thunk, fnName, linkTy);
    r1 := f.TryLinkWith(first);
    r2 := f.TryLinkWith(second);
    assert f.calls == ResolveCalls(linkTy, fnName, first);
  }
}
