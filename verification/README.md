# unwrap: a verified model of `VerboseUnwrap` and `unwrap!`

The `unwrap` crate replaces `unwrap()` on `Result` and `Option` with the
`unwrap!` macro. If the value is `Ok(t)` or `Some(t)`, the macro returns `t`.
If it is `Err(e)` or `None`, it panics with a fixed-shape text. That text
carries an 80-column banner naming the failed variant, the call site as
`file:line,column in module_path`, the caller's message on a line of its own
when there is one, and, for `Result` only, the pretty-debug rendering of
`Err(e)`.

The model is pure, like the source:

- `core.dfy`, module `Core`: Rust's `Option`, `Result` and `u32`.
- `decimal.dfy`, module `Decimal`: how `{}` writes a `u32`. `Show` renders a
  number and `Parse` reads it back. `Parse` accepts a string only if it is
  what `Show` writes for the number returned, and it reads back every number
  `Show` writes.
- `diagnostic.dfy`, module `Diagnostic`: the panic text (`DiagnosticText`)
  and a reader for it (`ParseDiagnostic`). Reading a rendered text gives back
  the kind, file, line, column, module path, message and payload. Every text
  the reader accepts is the rendering of what it returns, with a payload
  exactly when the kind is `Result::Err`. Lemmas state the
  layout: banner, location line, inserted message line, trailing payload.
- `unwrap.dfy`, module `Unwrap`: the two `verbose_unwrap` impls, the trait
  call dispatched to them, and the two arms of the `unwrap!` macro. A call
  ends in an `Outcome`: either `Returned(t)` or `Panicked(text)`.

The reader works only on "renderable" inputs. These have no newline in the
file, module path or message, and no space in the module path. The payload
must be non-empty and must not start with a newline. Rust module paths and
debug renderings meet these conditions. The file may contain any other
character, because the location line is read from the right. The reader also
requires the payload to match the kind, as the two impls do: the `Result` impl
always prints the failing value and the `Option` impl never prints one.

## Model

| member | source | states |
|---|---|---|
| `Unwrap.UnwrapResult` | src/lib.rs:31-80 | Returns exactly when the value is `Ok`, and then returns the `Ok` value unchanged. On `Err(e)` it panics. The text starts with the `Result::Err` banner. For renderable inputs, the text reads back as kind `Result::Err`, the given file, line, column and module path, the given message, and the payload `debugErr(e)` |
| `Unwrap.UnwrapOption` | src/lib.rs:82-113 | Returns exactly when the value is `Some`, and then returns the `Some` value unchanged. On `None` it panics. The text starts with the `Option::None` banner. For renderable inputs, the text reads back with kind `Option::None`, the given location and message, and no payload |
| `Unwrap.VerboseUnwrap` | src/lib.rs:7-28 | The trait method. Returns exactly on `Ok`/`Some`, and then returns the wrapped value. Otherwise the panic text reads back with the variant's kind, the location, the message, and the payload (present for `Err` only) |
| `Unwrap.UnwrapMacro` | src/lib.rs:135-137 | `unwrap!(e)`. Returns exactly on `Ok`/`Some`, and then returns the wrapped value. A panic text reads back with no message, and with the call site's file, line, column and module path |
| `Unwrap.UnwrapMacroWithMessage` | src/lib.rs:138-140 | `unwrap!(e, m)`. Returns exactly on `Ok`/`Some`, and then returns the wrapped value. A panic text reads back with message `m` and the call site's location |
| `Unwrap.PanicTextIsDiagnostic` | src/lib.rs:52-109 | On `Err` or `None`, every call panics. The text is the diagnostic text of the variant's kind, the given location and message, and the payload (the rendering of `Err(e)`, or none for `None`) |
| `Unwrap.SuccessIgnoresDiagnostics` | src/lib.rs:146-175 | On `Ok`/`Some`, the outcome is `Returned` with the wrapped value, whatever the message, module path, file, line, column and error rendering. So with and without a message, and on repeated calls, the value is the same |
| `Unwrap.MacroFormsDiffer` | src/lib.rs:52-109 | On `Err`/`None`, both macro forms panic. The one-argument text has the blank line directly after the location line. The two-argument text is the one-argument text with `m` and a newline inserted at that point |
| `Unwrap.OnlyResultHasPayload` | src/lib.rs:54-107 | The text without a payload ends with a blank line. For `None`, the panic text is exactly that text. For `Err(x)`, the panic text is that text followed by `debugErr(x)` and two newlines |
| `Unwrap.SourceTestCases` | src/lib.rs:143-189 | The crate's tests: `Ok(32)` and `Some(32)` give 32, with or without a message. `Err(32)` and `None` panic, with or without a message |
| `Diagnostic.DiagnosticText` | src/lib.rs:54-107 | The panic text of all four `panic!` calls. It starts with the banner of its kind, and it always ends with two newlines: with a payload, the two after the payload; without one, the end of the location or message line and the blank line. `ParseDiagnosticText` and `ParseDiagnosticSound` state that it loses no field |
| `Diagnostic.BannerLayout` | src/lib.rs:54-58 | The rule lines are 80 `!`. The header is 80 columns: `!   unwrap! called on `, the variant name, spaces, and `!` in the last column. Both banners are 245 characters |
| `Diagnostic.LocationAfterBanner` | src/lib.rs:59 | The text starts with the banner. The banner is followed directly by `file:line,column in module_path` and a newline, whatever the kind, message and payload |
| `Diagnostic.MessageInserted` | src/lib.rs:59-74 | Without a message, the character after the location line is the blank line's newline. The text with message `m` is the text without a message, with `m` and a newline inserted at that point |
| `Diagnostic.PayloadAppended` | src/lib.rs:61-63 | The text with payload `p` is the text without a payload, followed by `p` and two newlines |
| `Diagnostic.EndsWithBlankLine` | src/lib.rs:96-107 | Without a payload, the text ends with two newlines: the end of the location or message line, then the blank line |
| `Diagnostic.ParseLocationLine` | src/lib.rs:59 | The location line reads back as the file, line, column and module path it was written from, for a module path without spaces |
| `Diagnostic.ParseDiagnosticText` | src/lib.rs:54-107 | Round trip. For renderable fields whose payload is present exactly for `Result::Err`, reading the panic text gives back its kind, file, line, column, module path, message and payload |
| `Diagnostic.ParseDiagnosticSound` | src/lib.rs:54-107 | Converse. Every text the reader accepts is the panic text of the fields it returns. Those fields are renderable, and the payload is present exactly when the kind is `Result::Err`. So an `Option::None` text with a payload, or a `Result::Err` text without one, is refused. Renderable field sets with a matching payload correspond one to one with their panic texts |
| `Decimal.Show` | src/lib.rs:59 | The `{}` rendering of a line or column number is non-empty and all digits. It has no leading zero, and it starts with `0` exactly for zero |
| `Decimal.ParseShow` | src/lib.rs:59 | Reading back a rendered number gives the number |
| `Decimal.Parse` | src/lib.rs:59 | Only rendered numbers are read back. A string read as `n` is exactly `Show(n)` |

## Left out

- The panic and unwinding mechanism (src/lib.rs:54, 66, 91, 101). A panic is the outcome `Panicked(text)`. Whether it unwinds or aborts is not modelled.
- `Debug` formatting of the error type (src/lib.rs:62, 73). The `{:#?}` rendering of `Err::<(), E>(e)` is the function parameter `debugErr`. Its exact form depends on the Rust standard library version.
- The capture of the call site by `module_path!()`, `file!()`, `line!()` and `column!()` (src/lib.rs:136, 139). These are compiler facilities, so their values are plain inputs (`CallSite`).
- The commented-out loop over the error's chain of causes (src/lib.rs:40-50). It is never compiled.
- `unwrap_err`: src/lib.rs defines no such operation, and none is modelled.
- Strings are sequences of characters. Rust's UTF-8 byte representation of `&str` is not modelled.
- The rustdoc example (src/lib.rs:124-132) is documentation and is not modelled separately. It is the `Some` case of `UnwrapMacroWithMessage`.
- Unwrap.UnwrapResult: the ensures clause determines the panic text through the reader only for renderable inputs. For all inputs, the exact text is stated by `Unwrap.PanicTextIsDiagnostic`.
- Unwrap.UnwrapOption: the same as for `UnwrapResult`.
- Unwrap.VerboseUnwrap: the same as for `UnwrapResult`.
- Unwrap.UnwrapMacro: the same as for `UnwrapResult`. `Unwrap.MacroFormsDiffer` relates the two macro forms' texts for all inputs.
- Unwrap.UnwrapMacroWithMessage: the same as for `UnwrapMacro`.
