# logx1 in Dafny

A model of `logx1`, the logging façade of the Daydev-Org `utils` Go module, with
proofs about it. The façade wraps the zap structured logger. The logic it adds
on top of zap is modelled here:

- **`normalized`**: downcases the mode string one byte per `range` step.
- **`New`**: picks the production preset when the normalized mode is "prod" or
  "production", and the development preset otherwise.
- **`Sync`**: flushes the logger and drops the spurious EINVAL and ENOTTY
  errors that syncing a terminal or a pipe reports.
- **Context helpers**: `WithContext` and `FromContext` carry a logger in a
  `context.Context` under a private key.
- **Field helpers**: `WithFields`, `AttachRequest` and `LogError` attach
  structured fields to a logger.
- **`Must`**: returns the logger, or panics when setup failed.

Modules, one per file:

- **`Nilable`** (`nilable.dfy`): a value Go allows to be nil, as `None` or
  `Some`.
- **`Bytes`** (`bytes.dfy`): Go strings as byte sequences, and the ASCII
  downcasing step.
- **`Utf8`** (`utf8.dfy`): how many bytes one step of `for i := range s`
  advances from index i. That is the length of the single UTF-8 character
  (UTF8-char of section 4 of RFC 3629) that begins at i, or 1 when the bytes
  there are not one.
- **`Normalize`** (`normalize.dfy`): `normalized`, both as a reference
  function and as the source's loop.
- **`Errors`** (`errors.dfy`): Go errors as a finite unwrap chain, with
  `errors.Is` against a `syscall.Errno` and `errors.As` into an
  `*os.PathError`.
- **`Zap`** (`zap.dfy`): an abstract zap logger. It is an opaque core plus
  the fields attached so far. The global logger is a fixed constant.
- **`Context`** (`context.dfy`): `context.Background()` and
  `context.WithValue` layers. A lookup searches from the innermost layer
  outwards.
- **`Logx1`** (`logx1.dfy`): the façade's functions.

Go's `nil` is `None` throughout: for a logger pointer, an error, and a
context.

`normalized` does not downcase every byte. `for i := range s` visits only the
first byte of each rune, and `b` starts zeroed. So the continuation bytes of a
multi-byte rune come out as 0. For example, "CAFÉ" becomes the bytes
`63 61 66 C3 00`.

This model follows that behaviour. It proves that the output still has no
upper-case ASCII letter, and that `normalized` is idempotent on every input,
not only on ASCII. It also proves that the zeroing never changes what `New`
decides: `New` picks production exactly when the mode spells "prod" or
"production" in any mix of ASCII cases.

`Sync` drops an error when EINVAL or ENOTTY occurs anywhere on its unwrap
chain, whatever wraps it (`Logx1.SyncDropsWhateverWrapsBenign`). The comment
at logx1/logx1.go:81-83 keeps a benign error that itself wraps a real error.
On the single chains modelled here an errno wraps nothing, so that case
cannot arise and the code agrees with the comment. It can arise only for a
value joining several errors, or for an error with its own `Is` method that
reports EINVAL while its `Unwrap` gives a real error. Neither is modelled
(see "## Left out").

The second test looks for an `*os.PathError`. For the errors modelled here
(single chains, no custom `Is` or `As` methods), that test drops nothing the
first one kept, because `errors.Is` already looks inside a path error. An
error with its own `As` method could yield a path error that is not on its
chain, and then the second test could drop more.

## Model

| member | source | states |
|---|---|---|
| `Normalize.NormalizedBytes` | logx1/logx1.go:51-62 | The loop over a zeroed buffer, one write per `range` step, yields exactly the reference output `Normalized(s)`. |
| `Normalize.DowncaseAt` | logx1/logx1.go:54-60 | One loop step writes the downcased byte at the current rune start. It leaves the earlier bytes alone, moves on by exactly the rune width at i, and keeps every later byte zero. The buffer so far, followed by the reference output of the rest, is still the whole reference output. |
| `Normalize.Normalized` | logx1/logx1.go:53 | The output has exactly the input's byte length. |
| `Normalize.NormalizedPointwise` | logx1/logx1.go:53-60 | Output byte i is the downcased input byte when `range` visits i, and 0 otherwise. |
| `Normalize.NormalizedAscii` | logx1/logx1.go:54-59 | On ASCII input, output byte i is input byte i plus 32 when it is in 'A'..'Z', and unchanged otherwise. |
| `Normalize.NormalizedHasNoUpper` | logx1/logx1.go:56-58 | For any input, no output byte is in 'A'..'Z'. |
| `Normalize.MultiByteRuneZeroed` | logx1/logx1.go:53-54 | Wherever the input holds the UTF-8 encoding of a non-ASCII code point, the output keeps its lead byte and every continuation byte is 0. |
| `Normalize.NonTailReached` | logx1/logx1.go:54 | The loop visits every index whose byte is not a UTF-8 continuation byte. |
| `Normalize.NormalizedExample` | logx1/logx1.go:51-62 | "CAFÉ" (`43 41 46 C3 89`) becomes `63 61 66 C3 00`. |
| `Normalize.SingleRuneStaysSingle` | logx1/logx1.go:54 | Where `range` over the input takes a one-byte step, `range` over the output takes a one-byte step too. |
| `Normalize.NormalizedDecodesBytewise` | logx1/logx1.go:54 | `range` over the output steps one byte at a time, everywhere. |
| `Normalize.NormalizedIdempotent` | logx1/logx1.go:51-62 | Normalizing twice gives the same bytes as normalizing once, on every input. |
| `Normalize.ReachesGap` | logx1/logx1.go:54 | Two indices the loop visits are at least the first one's rune width apart. |
| `Normalize.ReachesNext` | logx1/logx1.go:54 | After a visited index, the loop visits the index just past that rune. |
| `Normalize.SingleRunesAllReached` | logx1/logx1.go:54 | When every step is one byte wide, the loop visits every index. |
| `Utf8.RuneWidth` | logx1/logx1.go:54 | One `range` step advances 1 to 4 bytes and never past the end of the string. |
| `Utf8.EncodedRuneWidth` | logx1/logx1.go:54 | At the UTF-8 encoding of a scalar value, a `range` step advances exactly that encoding's length. |
| `Utf8.WideStepIsEncoding` | logx1/logx1.go:54 | Conversely, a step wider than one byte covers the UTF-8 encoding of some non-ASCII scalar value, so ill-formed bytes are stepped over one at a time. |
| `Utf8.IllFormedSteps` | logx1/logx1.go:54 | Overlong forms, surrogates, values above U+10FFFF, bytes that never lead and cut-off sequences step one byte; their nearest well-formed neighbours step whole. |
| `Bytes.LowerClasses` | logx1/logx1.go:56-58 | The downcasing step leaves no upper-case letter. It maps letters to letters and ASCII to ASCII, and leaves every non-letter unchanged. |
| `Logx1.New` | logx1/logx1.go:42-48 | `New` selects production exactly when the mode is "prod" or "production" with each letter in either case. |
| `Logx1.NormalizedIsWordIff` | logx1/logx1.go:43-44 | The normalized mode equals a lower-case word exactly when the mode spells that word case-insensitively. |
| `Logx1.NewNonLetterIsDevelopment` | logx1/logx1.go:42-48 | A mode with any byte that is not an ASCII letter selects development. This covers surrounding spaces and non-ASCII letters. |
| `Logx1.NewExampleUpper` | logx1/logx1.go:42-45 | "PROD" selects production. |
| `Logx1.NewExamplesDevelopment` | logx1/logx1.go:42-48 | "prod " (with a trailing space) and "" select development. |
| `Logx1.Sync` | logx1/logx1.go:84-105 | `Sync` either reports nothing or reports the flush error unchanged. It only reports something when the logger is non-nil. |
| `Logx1.SyncFilters` | logx1/logx1.go:84-104 | `Sync` reports nothing exactly when the logger is nil, the flush succeeds, or EINVAL or ENOTTY is on the error's unwrap chain. Otherwise it reports the original error. |
| `Logx1.SyncPathErrorBranchRedundant` | logx1/logx1.go:94-103 | `Sync` agrees on every input with the same filter minus its `*os.PathError` branch. |
| `Logx1.SyncChainOnly` | logx1/logx1.go:94-96 | The filter without the path-error branch also either reports nothing or reports the flush error unchanged. |
| `Logx1.SyncDropsWhateverWrapsBenign` | logx1/logx1.go:81-96 | An error with EINVAL or ENOTTY anywhere on its chain makes `Sync` report nothing, whatever real error wraps it. |
| `Logx1.SyncExamples` | logx1/logx1.go:84-105 | ENOTTY inside a path error inside a wrapper is dropped. A path error around ENOENT is reported. A nil logger reports nothing. |
| `Errors.Is` | logx1/logx1.go:94 | `errors.Is(err, errno)` holds exactly when that errno is on err's unwrap chain. |
| `Errors.AsPathError` | logx1/logx1.go:98-99 | What `errors.As` finds, if anything, is an `*os.PathError` on err's unwrap chain. |
| `Errors.AsPathErrorFirst` | logx1/logx1.go:98-99 | `errors.As` finds the first `*os.PathError` on the chain, and finds none exactly when the chain has none. |
| `Errors.AsPathErrorOnChain` | logx1/logx1.go:99-100 | If `errors.Is` finds an errno under the path error that `errors.As` found, it finds that errno under the outer error too. |
| `Context.Lookup` | logx1/logx1.go:144 | `ctx.Value(key)` is the top layer's value when that layer stores key, and otherwise the value of some layer storing key. It finds nothing when no layer stores key. |
| `Context.LookupInnermost` | logx1/logx1.go:144 | `ctx.Value(key)` is the value of the innermost layer storing key: no layer inside it stores key. It finds nothing exactly when no layer stores key. |
| `Logx1.WithContext` | logx1/logx1.go:133-138 | The new context gives the stored logger, nil or not, under the private key. Every other key looks up as it did in ctx, or finds nothing when ctx is nil. |
| `Logx1.FromContext` | logx1/logx1.go:142-149 | The result is the non-nil logger stored under the private key of a non-nil context. When there is none, the result is the global logger. |
| `Logx1.ContextRoundTrip` | logx1/logx1.go:133-146 | `FromContext(WithContext(ctx, l))` is l for any non-nil l, including when ctx is nil. |
| `Logx1.NilLoggerMasks` | logx1/logx1.go:137-148 | Storing a nil logger makes `FromContext` return the global logger, even when an outer layer holds a logger. |
| `Logx1.ForeignLayerKeepsLogger` | logx1/logx1.go:144 | A value stored under another key does not change what `FromContext` returns. |
| `Zap.Logger.With` | logx1/logx1.go:157 | The child logger keeps the core, keeps the old fields first and adds the given fields after them, in order. |
| `Logx1.WithFields` | logx1/logx1.go:153-157 | The child keeps the core and fields of l, or of the global logger when l is nil. The given fields follow them in order. |
| `Logx1.WithFieldsComposes` | logx1/logx1.go:153-157 | Two calls attach both field lists in order, as one call with both would. A nil logger acts as the global one. |
| `Logx1.AttachRequest` | logx1/logx1.go:163-172 | The context's logger afterwards is the logger drawn from ctx, with the request fields appended and the same core. Other keys are untouched. |
| `Logx1.AttachRequestFields` | logx1/logx1.go:163-172 | The old fields come first. `request_id` comes right after them when reqID is non-empty, and `client_ip` comes last when clientIP is non-empty. Nothing else is added. |
| `Logx1.AttachRequestNothing` | logx1/logx1.go:163-171 | With an empty request id and client IP, the context yields the same logger as before. |
| `Logx1.LogError` | logx1/logx1.go:176-184 | The entry goes at Error level to l, or to the global logger when l is nil, with msg. The caller's fields come first. One more field, `error` carrying err, is added exactly when err is non-nil. |
| `Logx1.Must` | logx1/logx1.go:188-195 | The logger is returned unchanged exactly when err is nil. Otherwise the call panics with err. |

## Left out

- `NewDevelopment` and `NewProduction` (logx1/logx1.go:27-37) are zap's preset constructors. `New` is modelled by the preset it selects. The constructors' own errors are not modelled.
- `ReplaceGlobals`, `L` and `S` (logx1/logx1.go:72-79) manage process-global state. The global logger is the constant `Zap.Global`, and the sugared logger is not modelled.
- `StdLogger` and `StdWriter` (logx1/logx1.go:110-119) only hand the logger to zap's standard-library adapter.
- `Logx1.Sync`: the result of `l.Sync()` is the parameter `flushed`. The flush itself is zap's I/O.
- `Logx1.Must`: the message written to stderr before the panic is I/O and is not modelled. The panic is the `Panicked` outcome.
- `Logx1.LogError`: the write is modelled as the `Entry` handed to the logger's core. Encoding, level filtering, sampling and hooks are zap internals. The caller's fields are a value, so when a caller passes a slice with spare capacity (`all[:1]...`), the model does not show `append` at logx1/logx1.go:181 writing the `error` field into the caller's backing array.
- Errors: only single-error `Unwrap` chains are modelled, because those are the errors whose walk the façade's own code fixes. zap builds the error `l.Sync()` returns, and its multi-sink writers and tee cores join several errors into one with `Unwrap() []error`. `errors.Is` matches any member of such a tree. So EINVAL from stdout next to a real EIO from a log file makes `Sync` report nothing, and the EIO is lost. Such a value is where the code departs from its comment at logx1/logx1.go:81-83: the benign errno sits beside a real error and is still dropped. This model cannot show it, because its `Error` is a single chain.
- Errors with their own `Is` or `As` method are not modelled. `syscall.Errno.Is` only matches the `oserror` sentinels, never an errno target, so it changes nothing here. A custom `Is` that reports EINVAL on an error whose `Unwrap` gives a real error would make `Sync` drop that real error. A custom `As` could yield a path error off the chain (see above).
- A typed-nil `*os.PathError` is not modelled.
- Contexts: only `Background` and `WithValue` layers are modelled. Cancellation and deadline layers only pass `Value` to their parent.
- The `crypto`, `jwt` and `date` packages are not part of this model. They delegate to the standard library, to a JWT library and to the system clock.
- Concurrency: the façade holds no state of its own. The global logger's thread safety is zap's.
