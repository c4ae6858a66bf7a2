# dylink core, modelled in Dafny

dylink lets a Rust program declare foreign functions that are resolved lazily
from dynamic libraries that may or may not be present. This project models and
proves three parts of it:

- **The library handle registry** (`library.dfy`, module `Registry`,
  from `src/library.rs`). A `Library` holds a non-empty list of candidate
  library names and a cached handle. `FindAndSwap` opens the first candidate
  that yields a valid handle, caches that handle for good, looks a symbol up
  and swaps its address into a caller's slot. A `CloseableLibrary` also keeps
  an undo log of `(slot, previous value)` pairs. `Close` drops the handle,
  stores the logged values back into their slots and closes the library.
- **The lazy binding engine** (`lazyfn.dfy`, module `LazyBinding`, from
  `src/lazyfn.rs`). A `LazyFn` starts with its pointer on a placeholder thunk.
  Its first `TryLinkWith` resolves the symbol once:
  - the Vulkan link type asks only the Vulkan loader;
  - the System link type tries the candidate libraries in order and stops at
    the first success.
  The outcome is recorded, either the resolved address (which the pointer then
  designates) or a permanent error, and every later call returns it without
  touching a loader.
- **Image introspection** (`unix.dfy`, module `UnixImage`, from
  `src/os/unix.rs`). `HdrSize` decodes an image's header size from its first
  bytes: ELF32/ELF64 `e_ehsize`, or the Mach-O header struct plus
  `sizeofcmds`. `DlopenFname` picks the name to give dlopen. `LoadObjects`
  turns the program-header iteration into a list of (base address, path)
  entries.

`wrappers.dfy` holds the `Option` and `Result` datatypes. `common.dfy`
(module `Common`) holds the names, addresses and the `io::Error` kinds the
three parts share.

The OS loader is not modelled. It enters as a value of functions passed to
each call:
- `Registry.Loader` gives `load_library`, `find_symbol` and `close`;
- `LazyBinding.Linker` gives `general_loader`, `vulkan_loader` and the error's
  `to_string`.

A loader passed to a call stands for the OS as it answers at that moment.
So a retry after a failed open can see a different answer. Ghost traces record
every `load_library` call of the registry and every loader call the lazy
engine makes:
- `Library.loadCalls` lists the candidates passed to `load_library`;
- `LazyFn.calls` lists the calls made by `general_loader` and `vulkan_loader`.

The registry's `find_symbol` and `close` calls leave no trace. Their results
appear in the contracts, but no contract says how often they are called.

The proofs use these traces to show:
- which candidates are tried;
- that they are tried in order;
- that cached outcomes consult no loader.

Slots are the program's `'static AtomicPtr` cells. Here they are the cells of
one `array<Addr>` given to the registry when it is built, and a slot is an
index into that array. Address 0 is the null pointer.

### Behaviour of the code worth knowing

- The System link type calls `general_loader` once per library **name**. It
  does not go through `Library` registries.
- `close` on a registry that was never opened, and on one already closed,
  gives the same error: `InvalidInput`, "`CloseableLibrary` is uninitialized."
  There is no separate "never opened" and "already closed" error.
- An unrecognised magic gives `ErrorKind::Other` with "unknown header
  detected". An ELF file whose class byte is neither 1 nor 2 gives
  `InvalidData` with "invalid ELF file".
- `close` stores the logged values back oldest entry first. This does not
  restore a slot that was swapped twice (see Findings).

## Model

| member | source | states |
|---|---|---|
| `Registry.FirstOpen` | src/library.rs:73-82 | the position and handle of the first candidate whose `load_library` gives a valid handle: every earlier candidate gave an invalid one; `None` only when every candidate gave an invalid handle |
| `Registry.FirstOpenAt` | src/library.rs:75-80 | a candidate that opens after only failing ones is the one the loop caches |
| `Registry.OpenedHandle` | src/library.rs:74-82 | when no handle is cached, the open phase caches one exactly when some candidate opens |
| `Registry.Attempted` | src/library.rs:75-81 | the candidates passed to `load_library` form a prefix of the list: every one but the last gave an invalid handle; it stops early only at a valid handle, and that handle is the one cached |
| `Registry.Library.constructor` | src/library.rs:50-56 | construction needs a non-empty candidate list; nothing is cached and no candidate has been opened |
| `Registry.Library.FindAndSwap` | src/library.rs:67-94 | a cached handle is reused and no candidate is opened; otherwise candidates are opened in order up to the first valid one, which is cached (none cached when all are invalid, so a later call retries); the result is `Some(previous slot value)` exactly when there is a handle and the symbol is not null, and then the slot holds the symbol address and every other slot is unchanged; on `None` all slots are unchanged |
| `Registry.CloseableLibrary.constructor` | src/library.rs:106-112 | construction needs a non-empty candidate list; nothing cached and an empty undo log |
| `Registry.CloseableLibrary.FindAndSwap` | src/library.rs:136-152 | the inner registry's behaviour, plus exactly one undo-log entry `(slot, previous value)` appended on success; the log is untouched on `None` |
| `Registry.CloseableLibrary.Close` | src/library.rs:118-132 | with no handle cached: `InvalidInput` error and log and slots unchanged; otherwise the handle is reset to none, each logged value is stored back into its slot in log order (the slots become `Registry.Replay` of the old slots and log), the log is emptied and the handle's close result is returned |
| `Registry.ReplayNewestEntryWins` | src/library.rs:121-123 | after `close`'s replay (`Registry.Replay`) a slot holds the value of its newest log entry; a slot the log does not mention keeps its value |
| `Registry.ReplayRestoresDistinctSlots` | src/library.rs:118-124 | when no slot was swapped twice, `close`'s replay restores every slot to its value before its swap |
| `Registry.ReplayOfDoubleBindKeepsFirstBinding` | src/library.rs:121-123 | two swaps into one slot log `(0, 7)` then `(0, 200)`; the replay leaves 200 where rollback gives back 7 |
| `Registry.DoubleSwapThenClose` | src/library.rs:118-151 | the same through the registry's own methods: after two swaps into a slot holding 7 and a `close`, the slot holds 200 |
| `Registry.SwapCloseSwap` | src/library.rs:118-151 | for any loader, candidates and slot: one `find_and_swap`, then `close`, then another `find_and_swap` on a fresh registry. `close` gives the handle's close result, or the `InvalidInput` error when nothing opened; it puts the slot back to its value before the swap; the second call opens the candidates again and returns what the first did |
| `Registry.RollbackRestores` | src/library.rs:114-123 | rolling back the log of any sequence of swaps restores every slot to its value before the first swap |
| `LazyBinding.SearchSystem` | src/lazyfn.rs:100-110 | the candidates are tried in order: the failures collected are those of the first candidates, and the search stops at the first candidate that yields an address, which it returns; with no success every candidate has failed |
| `LazyBinding.SystemFindsFirst` | src/lazyfn.rs:100-110 | if candidate `i` is the first to yield the symbol, resolution (`LazyBinding.Resolve`) returns its address and exactly the candidates `0..i` were tried |
| `LazyBinding.SystemFailureListsEveryCandidate` | src/lazyfn.rs:101-117 | if no candidate yields the symbol, the error is `ListNotLoaded` with exactly one message per candidate, in candidate order (none for an empty list), and every candidate was tried |
| `LazyBinding.VulkanIgnoresSystemLoader` | src/lazyfn.rs:98-99 | the Vulkan link type resolves through the Vulkan loader alone: changing the system loader changes nothing, and the only call made is to the Vulkan loader |
| `LazyBinding.LazyFn.constructor` | src/lazyfn.rs:58-69 | the pointer designates the thunk, the cached value is the thunk, no error is recorded and resolution has not run |
| `LazyBinding.LazyFn.TryLinkWith` | src/lazyfn.rs:96-139 | the first call makes exactly the loader calls of one resolution (`LazyBinding.Resolve` gives its outcome, `LazyBinding.ResolveCalls` its calls) and records its outcome: on success the cached value is the address and the pointer designates it; on failure the error is recorded and the pointer stays on the thunk. Later calls change nothing and make no loader call. Every call returns the recorded outcome |
| `LazyBinding.LazyFn.TryLink` | src/lazyfn.rs:90-92 | `TryLinkWith` with the default linker |
| `LazyBinding.LazyFn.Load` | src/lazyfn.rs:141-149 | the designated value: the thunk before a successful resolution, the resolved address after |
| `LazyBinding.LazyFn.Deref` | src/lazyfn.rs:158-164 | as `Load` |
| `LazyBinding.LazyFn.IntoInner` | src/lazyfn.rs:153-155 | the cached value: the thunk unless a resolution succeeded, else the resolved address |
| `LazyBinding.LinkTwice` | src/lazyfn.rs:96-139 | two calls on a fresh instance, even with different linkers, return the identical outcome, which is that of the first linker |
| `UnixImage.LeU32OfLeBytes32` | src/os/unix.rs:306-307 | reading a 32-bit little-endian field back gives the value `to_le_bytes` wrote |
| `UnixImage.HdrSize` | src/os/unix.rs:305-343 | an unknown leading 4 bytes, and only that, gives the `Other` "unknown header detected" error; an ELF magic with a class byte other than 1 or 2, and only that, gives `InvalidData`; any size returned fits a 32-bit field plus the largest Mach-O header |
| `UnixImage.HdrSizeOfEncode` | src/os/unix.rs:312-331 | for any bytes with an ELF32/ELF64 or Mach-O 32/64 header laid over them, the decoded size is that header's `e_ehsize`, or its struct size (28 or 32) plus `sizeofcmds`, whatever the other bytes hold |
| `UnixImage.UnknownMagicRejected` | src/os/unix.rs:338-341 | an unrecognised magic is an error whatever follows it; only the first 4 bytes decide |
| `UnixImage.DlopenFname` | src/os/unix.rs:42-48 | null exactly when the name equals the current executable's path, otherwise the name itself |
| `UnixImage.LoadObjects` | src/os/unix.rs:264-284 | one entry per visited image, in visiting order, with its base address; a null name gives no path, an empty name gives the executable's path, any other name is the path (a name is the bytes before its NUL, so none of them is 0) |

## Left out

- Concurrency: `sync::Once`, the mutexes, `AtomicPtr` and its memory orderings, `RefCell`/`Cell`. The model is sequential: `Once` is the `done` flag and the `Ordering` arguments are dropped. Blocking of late threads on the guard, acquire/release visibility, and the race in `CloseableLibrary::find_and_swap`, which appends to the log after releasing the handle lock, are not captured.
- The loader implementations (`crate::loader`, `general_loader`, `vulkan_loader`, the default linker) are not part of this model. They enter as functions passed to each call, and each is deterministic within that call.
- The `Display` text of the crate's error type is not part of this model. It enters as `Linker.describe`, and every loader error is represented by `DylinkError.Failure`.
- `Registry.Library.constructor`, `Registry.CloseableLibrary.constructor`: the `assert!` on an empty list (a panic, or a compile-time error in a `const` context) becomes a precondition.
- `LazyBinding.LazyFn.constructor`: the `size_of::<FnPtr>() == size_of::<F>()` assertion and the `transmute_copy` of the resolved address are not modelled; `F` is an address.
- `UnixImage.HdrSize`: the Windows 2-byte magic branch is not modelled. Fields are read little-endian, so a big-endian host is not modelled. The source reads raw memory, and its demand that the header struct be readable becomes the `Mapped` precondition. `usize` is taken to be 64 bits: on a 32-bit target the Mach-O sum of 28 or 32 and `sizeofcmds` overflows when `sizeofcmds` is at least 0xFFFF_FFE4 (0xFFFF_FFE0 for 64-bit Mach-O), a panic in debug builds and a wrap-around in release builds. The model returns the unbounded sum.
- `UnixImage.DlopenFname`: the panics of its `unwrap` calls (a name that is not UTF-8, an executable path that cannot be found) are not modelled; names are byte strings.
- `UnixImage.LoadObjects`: `dl_iterate_phdr` becomes the sequence of images it visits. The function always returns `Ok`, so the model returns the list itself.
- The slot memory is one array that outlives every registry, so a slot destroyed before its registry closes is not modelled.
- FFI wrappers in `src/os/unix.rs`: `InnerLibrary` (`open`, `this`, `symbol`, `raw_symbol`, `try_clone`, `to_ptr`, `from_ptr`, `Drop`), `c_dlerror`, `dylib_guard`, `base_addr`, `SymExt::info`, `hdr_path`, `iter_phdr`, and the macOS `get_image_count`, `to_ptr` and `load_objects`. They are out of scope because they sit at the FFI boundary. Most of them only call dlopen, dlsym, dladdr, dlinfo or dyld. `try_clone` also compares handles, and the macOS `to_ptr` searches the loaded images for a masked handle. That logic is not modelled either.
- `src/load/this.rs`, the `dylink_macro` code generator and the integration tests are not part of this model.

## Findings

| source | as written | input that shows it | evidently intended | confidence | as-written member | corrected member |
|---|---|---|---|---|---|---|
| src/library.rs:121-123 | `close` stores the logged previous values back oldest entry first, so a slot swapped twice ends with the value logged by its second swap, which is the address bound by the first | a slot holding the thunk 7; two successful `find_and_swap` calls into it for a symbol at 200 (log `(slot, 7)`, `(slot, 200)`); then `close`: the slot holds 200, an address in the library just closed | every slot back at its value before its first swap ("resets all associated function pointers to uninitialized state"), which replaying newest entry first gives | medium, not executed (only callers that swap one slot twice are affected) | `Registry.DoubleSwapThenClose` | `Registry.RollbackRestores` |

`Registry.CloseableLibrary.Close` keeps the order as written, so that it can be
read line by line against `close`. The newest-first order is `Registry.Rollback`,
and `Registry.RollbackRestores` proves that it restores every slot.
