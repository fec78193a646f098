# garray StringArray, modelled in Dafny

This project models `StringArray` from the gf framework's `garray` package. `StringArray` is a growable array of strings guarded by a `sync.RWMutex`. It offers:

- construction with an initial length and an optional capacity (`NewStringArray`);
- positional access and update (`Get`, `Set`, `Insert`, `Remove`, `Append`);
- queries (`Len`, `Slice`);
- a reset to the initial length (`Clear`).

Module `GArray` (`garray_string.dfy`) holds the array itself. Class `StringArray` keeps the struct's fields `cap` and `size`. Its slice field becomes a Go slice header: a backing `array<string>` named `data`, whose length is the slice capacity, and a `length`. The ghost function `Contents()` is `data[..length]`, which is what callers see. Every mutator is a method with `modifies` and an `ensures` that gives the new contents as a function of the old ones:

- `Set` gives `old[index := value]`.
- `Insert` gives `Inserted(old, index, value)`, defined as `old[..index] + [value] + old[index..]`.
- `Remove` gives `Removed(old, index)`, defined as `old[..index] + old[index+1..]`.
- `Append` gives `old + [value]`.
- `Clear` gives `Blank(size)`.

Each mutator also states that `size` and `cap` do not change; for `Set`, its frame (`modifies data`) implies it. The lemmas beside the class give the pointwise shape of `Inserted` and `Removed` ("nothing else changes", length ±1). They also prove both round trips, and that appending equals inserting at `Len()`.

Go's builtin `append` is modelled once, by `AppendValues`. It writes into the backing store when there is room. Otherwise it moves the elements to a fresh, larger array. `Insert` keeps the source's three steps:

1. Copy the tail as a value.
2. Reslice to `index` and append `value`. This overwrites `data[index]` in place whenever it is within capacity.
3. Append the saved tail.

The proof of `Insert` relies on the tail being a copy.

Module `RWMutex` (`rwmutex.dfy`) models the locking discipline on its own, as seen by a single goroutine:

- the state of a `sync.RWMutex` and what each call does to it;
- the acquire and release each operation makes;
- what a sequence of operations does to the mutex.

## Model

| member | source | states |
|---|---|---|
| `GArray.StringArray.constructor` | g/container/garray/garray_string.go:18-28 | the array holds `size` empty strings; `size` is stored; `cap` is stored only when given (else 0), and the backing store has that capacity (else `size`) |
| `GArray.StringArray.Get` | g/container/garray/garray_string.go:30-36 | for `0 <= index < Len()`, returns the element at `index` and changes nothing |
| `GArray.StringArray.Set` | g/container/garray/garray_string.go:38-43 | for `0 <= index < Len()`, position `index` holds `value` afterwards; the length and every other position are unchanged |
| `GArray.StringArray.Insert` | g/container/garray/garray_string.go:45-52 | for `0 <= index <= Len()`, the new contents are `old[..index] + [value] + old[index..]`; `size` and `cap` are unchanged |
| `GArray.StringArray.Remove` | g/container/garray/garray_string.go:54-59 | for `0 <= index < Len()`, the new contents are `old[..index] + old[index+1..]`; `size` and `cap` are unchanged |
| `GArray.StringArray.Append` | g/container/garray/garray_string.go:61-66 | the new contents are the old contents followed by `value` |
| `GArray.StringArray.Len` | g/container/garray/garray_string.go:68-74 | returns the number of elements and changes nothing |
| `GArray.StringArray.Slice` | g/container/garray/garray_string.go:76-82 | returns exactly the current contents and changes nothing |
| `GArray.StringArray.Clear` | g/container/garray/garray_string.go:84-93 | whatever the prior contents, afterwards the array holds `size` empty strings, with capacity `cap` when `cap > 0`; `size` and `cap` are unchanged, so a second Clear gives the same state |
| `GArray.StringArray.AppendValues` | g/container/garray/garray_string.go:49-50 | Go's `append(slice, xs...)` on the array's slice: the contents become old contents followed by `xs`; the backing store is reused or fresh |
| `GArray.Blank` | g/container/garray/garray_string.go:23-25 | `make([]string, n)` holds exactly `n` elements, each the empty string |
| `GArray.InsertedShape` | g/container/garray/garray_string.go:45-52 | inserting grows the length by exactly one; earlier positions are kept, `index` holds `value`, later elements shift up by one |
| `GArray.RemovedShape` | g/container/garray/garray_string.go:54-59 | removing shrinks the length by exactly one; earlier positions are kept and later elements shift down by one |
| `GArray.RemoveUndoesInsert` | g/container/garray/garray_string.go:45-59 | `Insert(i, v)` followed by `Remove(i)` restores the original contents exactly |
| `GArray.InsertUndoesRemove` | g/container/garray/garray_string.go:45-59 | `Remove(i)` followed by re-inserting the removed element at `i` restores the original contents |
| `GArray.AppendIsInsertAtEnd` | g/container/garray/garray_string.go:45-66 | `Append(v)` has the same effect on the contents as `Insert(Len(), v)` |
| `RWMutex.Step` | g/container/garray/garray_string.go:12 | a call on the mutex is fatal exactly when it releases a lock that is not held: `Unlock` without the write lock, `RUnlock` without a read lock |
| `RWMutex.Protocol` | g/container/garray/garray_string.go:30-107 | each operation makes one acquire and then one release; the operations that change the array take the write lock and the others a read lock; the release matches the acquire in every operation except the as-written `Remove` |
| `RWMutex.SessionConcat` | g/container/garray/garray_string.go:30-107 | the mutex calls of two sequences of operations run one after the other are those of the joined sequence |
| `RWMutex.RunConcat` | g/container/garray/garray_string.go:30-107 | running two call sequences one after the other is the same as running their concatenation |
| `RWMutex.RemoveAsWrittenIsFatal` | g/container/garray/garray_string.go:54-59 | as written, `Remove` on an unlocked mutex ends in the runtime's fatal "RUnlock of unlocked RWMutex" |
| `RWMutex.AsWrittenSessionSurvives` | g/container/garray/garray_string.go:30-107 | as written, a single goroutine's sequence of operations completes exactly when it contains no `Remove`, and then leaves the mutex unlocked; a sequence containing `Remove` ends in the fatal "RUnlock of unlocked RWMutex" |
| `RWMutex.CorrectedSessionBalanced` | g/container/garray/garray_string.go:30-107 | with `Remove` releasing the write lock, every sequence of operations completes and leaves the mutex unlocked |

## Left out

- Locking in `StringArray`: the class is sequential and its methods take no lock. The mutex is modelled separately in `RWMutex`, for a single goroutine. Contention between goroutines is not modelled.
- `GArray.StringArray.Remove`: models the intended effect on the slice, not the fatal error that the as-written lock release raises afterwards (see Findings).
- `RWMutex.Protocol`: describes the path without a panic. No operation defers its release, so an out-of-range index panics while the lock is held; that path is excluded like every other bounds violation.
- `LockFunc` and `RLockFunc`: only their acquire and release are modelled, in `RWMutex.Protocol`. The callback receives the live slice and may change it arbitrarily, so its effect on the contents has no contract.
- `GArray.StringArray.Slice`: returns the contents as a value. In Go the caller gets the live slice, and later writes through either alias are visible to the other; that aliasing is not modelled.
- `GArray.StringArray.AppendValues`: when the backing store is full, the new capacity is "double, or exactly what is needed if that is more". Go's runtime growth policy (1.25x growth above 1024 elements, rounding to size classes) is not modelled, because capacity never shows in the contents.
- Index out of range: `Get`, `Set`, `Insert` and `Remove` panic on a bad index, and their comments make the bounds the caller's obligation. The model states those bounds as `requires` clauses and leaves the panic path out.
- `GArray.StringArray.constructor`: `requires 0 <= size` and `requires |cap| > 0 ==> size <= cap[0]` exclude the inputs on which `make` panics (a negative length, or a length above the capacity). `NewStringArray` documents no such precondition, so the model does not cover those panic paths.
- `int` is unbounded. Go's `int` is as wide as the platform word (32 or 64 bits); at either width, the index arithmetic (`index + 1` with `index` below the length) cannot overflow.
- g/net/ghttp/ghttp_server_comm_main.go is not part of this model. It launches processes, sends inter-process messages, reads the wall clock in an endless sleep loop, and keeps its state in collaborators whose source is not available.
- geg/net/ghttp/server/websocket/echo/main.go is not part of this model: it is a WebSocket echo demo made of network I/O.

## Findings

| source | as written | input that shows it | evidently intended | confidence | as-written member | corrected member |
|---|---|---|---|---|---|---|
| g/container/garray/garray_string.go:56-58 | `Remove` takes the write lock (`Lock`) and releases a read lock (`RUnlock`); Go's runtime stops the process with "sync: RUnlock of unlocked RWMutex" | `NewStringArray(1)` then `Remove(0)` from one goroutine | release the write lock with `Unlock`, as `Set`, `Insert`, `Append` and `Clear` do | not executed | `RWMutex.RemoveAsWrittenIsFatal` | `RWMutex.CorrectedSessionBalanced` |
