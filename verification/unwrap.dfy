/**
 `VerboseUnwrap::verbose_unwrap` for `Result` and `Option`, and the `unwrap!`
 macro in front of them.

 A call either returns the wrapped value or panics. The panic is modelled as an
 outcome carrying the panic text; the call-site values the macro captures
 (`module_path!()`, `file!()`, `line!()`, `column!()`) are plain inputs, and the
 `{:#?}` rendering of a failing `Err` is the parameter `debugErr`.
 */
module Unwrap {
  import opened Core
  import opened Diagnostic

  /** How a call ends: it returns the wrapped value, or it panics with a text. */
  datatype Outcome<T> = Returned(value: T) | Panicked(text: string)

  /**
   `verbose_unwrap` on a `Result`: `Ok(t)` gives `t`; `Err(e)` panics with the
   `Result::Err` banner, the location, the message if any and `debugErr(e)`, the
   pretty-debug rendering of `Err(e)`.
   */
  function UnwrapResult<T, E>(self: Result<T, E>, message: Option<string>, modulePath: string, file: string,
                              lineNumber: u32, column: u32, debugErr: E -> string): (r: Outcome<T>)
    ensures r.Returned? <==> self.Ok?
    ensures self.Ok? ==> r.value == self.value
    ensures r.Panicked? ==> Banner(ResultErr) <= r.text
    ensures r.Panicked? && Renderable(file, modulePath, message, Some(debugErr(self.error))) ==>
              ParseDiagnostic(r.text)
              == Some(Report(ResultErr, file, lineNumber as nat, column as nat, modulePath, message, Some(debugErr(self.error))))
  {
    match self
    case Ok(t) => Returned(t)
    case Err(e) =>
      var payload := Some(debugErr(e));
      var text := DiagnosticText(ResultErr, file, lineNumber as nat, column as nat, modulePath, message, payload);
      assert Renderable(file, modulePath, message, payload) ==>
               ParseDiagnostic(text)
               == Some(Report(ResultErr, file, lineNumber as nat, column as nat, modulePath, message, payload)) by {
        if Renderable(file, modulePath, message, payload) {
          ParseDiagnosticText(ResultErr, file, lineNumber as nat, column as nat, modulePath, message, payload);
        }
      }
      Panicked(text)
  }

  /**
   `verbose_unwrap` on an `Option`: `Some(t)` gives `t`; `None` panics with the
   `Option::None` banner, the location and the message if any, and no payload.
   */
  function UnwrapOption<T>(self: Option<T>, message: Option<string>, modulePath: string, file: string,
                           lineNumber: u32, column: u32): (r: Outcome<T>)
    ensures r.Returned? <==> self.Some?
    ensures self.Some? ==> r.value == self.value
    ensures r.Panicked? ==> Banner(OptionNone) <= r.text
    ensures r.Panicked? && Renderable(file, modulePath, message, None) ==>
              ParseDiagnostic(r.text)
              == Some(Report(OptionNone, file, lineNumber as nat, column as nat, modulePath, message, None))
  {
    match self
    case Some(t) => Returned(t)
    case None =>
      var text := DiagnosticText(OptionNone, file, lineNumber as nat, column as nat, modulePath, message, None);
      assert Renderable(file, modulePath, message, None) ==>
               ParseDiagnostic(text)
               == Some(Report(OptionNone, file, lineNumber as nat, column as nat, modulePath, message, None)) by {
        if Renderable(file, modulePath, message, None) {
          ParseDiagnosticText(OptionNone, file, lineNumber as nat, column as nat, modulePath, message, None);
        }
      }
      Panicked(text)
  }

  /** A value of one of the two types `VerboseUnwrap` is implemented for. */
  datatype Unwrappable<T, E> = ResultValue(result: Result<T, E>) | OptionValue(option: Option<T>)

  /** `Ok` or `Some`: the value can be unwrapped. */
  predicate Succeeds<T, E>(u: Unwrappable<T, E>) {
    match u
    case ResultValue(res) => res.Ok?
    case OptionValue(opt) => opt.Some?
  }

  /** The `Wrapped` value inside an `Ok` or `Some`. */
  function Wrapped<T, E>(u: Unwrappable<T, E>): T
    requires Succeeds(u)
  {
    match u
    case ResultValue(res) => res.value
    case OptionValue(opt) => opt.value
  }

  /** The banner a failing value gets. */
  function FailureKind<T, E>(u: Unwrappable<T, E>): Kind {
    match u
    case ResultValue(_) => ResultErr
    case OptionValue(_) => OptionNone
  }

  /** The payload a failing value gets: the rendering of `Err(e)`, and nothing for `None`. */
  function Payload<T, E>(u: Unwrappable<T, E>, debugErr: E -> string): Option<string> {
    match u
    case ResultValue(Err(e)) => Some(debugErr(e))
    case _ => None
  }

  /** The trait method, dispatched to the impl of the value's type. */
  function VerboseUnwrap<T, E>(self: Unwrappable<T, E>, message: Option<string>, modulePath: string, file: string,
                               lineNumber: u32, column: u32, debugErr: E -> string): (r: Outcome<T>)
    ensures r.Returned? <==> Succeeds(self)
    ensures Succeeds(self) ==> r.value == Wrapped(self)
    ensures r.Panicked? && Renderable(file, modulePath, message, Payload(self, debugErr)) ==>
              ParseDiagnostic(r.text)
              == Some(Report(FailureKind(self), file, lineNumber as nat, column as nat, modulePath, message,
                             Payload(self, debugErr)))
  {
    match self
    case ResultValue(res) => UnwrapResult(res, message, modulePath, file, lineNumber, column, debugErr)
    case OptionValue(opt) => UnwrapOption(opt, message, modulePath, file, lineNumber, column)
  }

  /** What `module_path!()`, `file!()`, `line!()` and `column!()` give at the macro's call site. */
  datatype CallSite = CallSite(modulePath: string, file: string, line: u32, column: u32)

  /** `unwrap!(e)`: no message, and the call site's module path, file, line and column. */
  function UnwrapMacro<T, E>(e: Unwrappable<T, E>, site: CallSite, debugErr: E -> string): (r: Outcome<T>)
    ensures r.Returned? <==> Succeeds(e)
    ensures Succeeds(e) ==> r.value == Wrapped(e)
    ensures r.Panicked? && Renderable(site.file, site.modulePath, None, Payload(e, debugErr)) ==>
              ParseDiagnostic(r.text)
              == Some(Report(FailureKind(e), site.file, site.line as nat, site.column as nat, site.modulePath, None,
                             Payload(e, debugErr)))
  {
    VerboseUnwrap(e, None, site.modulePath, site.file, site.line, site.column, debugErr)
  }

  /** `unwrap!(e, m)`: the message `m`, and the call site's module path, file, line and column. */
  function UnwrapMacroWithMessage<T, E>(e: Unwrappable<T, E>, m: string, site: CallSite, debugErr: E -> string)
    : (r: Outcome<T>)
    ensures r.Returned? <==> Succeeds(e)
    ensures Succeeds(e) ==> r.value == Wrapped(e)
    ensures r.Panicked? && Renderable(site.file, site.modulePath, Some(m), Payload(e, debugErr)) ==>
              ParseDiagnostic(r.text)
              == Some(Report(FailureKind(e), site.file, site.line as nat, site.column as nat, site.modulePath, Some(m),
                             Payload(e, debugErr)))
  {
    VerboseUnwrap(e, Some(m), site.modulePath, site.file, site.line, site.column, debugErr)
  }

  // ----- Properties relating several calls -----

  /**
   On `Err` or `None` the call panics with the diagnostic text of the value's
   kind, the given location and message, and the value's payload.
   */
  lemma PanicTextIsDiagnostic<T, E>(u: Unwrappable<T, E>, message: Option<string>, modulePath: string, file: string,
                                    lineNumber: u32, column: u32, debugErr: E -> string)
    requires !Succeeds(u)
    ensures var r := VerboseUnwrap(u, message, modulePath, file, lineNumber, column, debugErr);
            && r.Panicked?
            && r.text == DiagnosticText(FailureKind(u), file, lineNumber as nat, column as nat, modulePath, message,
                                        Payload(u, debugErr))
  {
  }

  /**
   On `Ok` or `Some` the result is the wrapped value whatever the message, module
   path, file, line, column and error rendering: unwrapping twice, or with and
   without a message, gives the same value.
   */
  lemma SuccessIgnoresDiagnostics<T, E>(u: Unwrappable<T, E>,
                                        m1: Option<string>, modulePath1: string, file1: string, line1: u32, column1: u32,
                                        m2: Option<string>, modulePath2: string, file2: string, line2: u32, column2: u32,
                                        debugErr1: E -> string, debugErr2: E -> string)
    requires Succeeds(u)
    ensures VerboseUnwrap(u, m1, modulePath1, file1, line1, column1, debugErr1)
            == VerboseUnwrap(u, m2, modulePath2, file2, line2, column2, debugErr2)
            == Returned(Wrapped(u))
  {
  }

  /** The texts the two macro forms panic with, one without a message and one with `m`. */
  lemma MacroTexts<T, E>(e: Unwrappable<T, E>, m: string, site: CallSite, debugErr: E -> string)
    requires !Succeeds(e)
    ensures var kind, line, column := FailureKind(e), site.line as nat, site.column as nat;
            && UnwrapMacro(e, site, debugErr)
               == Panicked(DiagnosticText(kind, site.file, line, column, site.modulePath, None, Payload(e, debugErr)))
            && UnwrapMacroWithMessage(e, m, site, debugErr)
               == Panicked(DiagnosticText(kind, site.file, line, column, site.modulePath, Some(m), Payload(e, debugErr)))
  {
    PanicTextIsDiagnostic(e, None, site.modulePath, site.file, site.line, site.column, debugErr);
    PanicTextIsDiagnostic(e, Some(m), site.modulePath, site.file, site.line, site.column, debugErr);
  }

  /**
   On `Err` or `None` both macro forms panic, and their texts differ exactly by
   the message line, inserted right after the location line.
   */
  lemma MacroFormsDiffer<T, E>(e: Unwrappable<T, E>, m: string, site: CallSite, debugErr: E -> string)
    requires !Succeeds(e)
    ensures var without := UnwrapMacro(e, site, debugErr);
            var with := UnwrapMacroWithMessage(e, m, site, debugErr);
            var k := |Banner(FailureKind(e))| + |LocationLine(site.file, site.line as nat, site.column as nat, site.modulePath)| + 1;
            && without.Panicked? && with.Panicked?
            && k < |without.text| && without.text[k] == '\n'
            && with.text == without.text[..k] + (m + "\n") + without.text[k..]
  {
    MacroTexts(e, m, site, debugErr);
    MessageInserted(FailureKind(e), site.file, site.line as nat, site.column as nat, site.modulePath, m,
                    Payload(e, debugErr));
  }

  /**
   Only the `Result` text carries a payload: for `Err(x)` it is the text without
   a payload followed by `debugErr(x)` and two newlines; for `None` it is the text
   without a payload, which ends with the blank line.
   */
  lemma OnlyResultHasPayload<T, E>(u: Unwrappable<T, E>, message: Option<string>, modulePath: string, file: string,
                                   lineNumber: u32, column: u32, debugErr: E -> string)
    requires !Succeeds(u)
    ensures var r := VerboseUnwrap(u, message, modulePath, file, lineNumber, column, debugErr);
            var bare := DiagnosticText(FailureKind(u), file, lineNumber as nat, column as nat, modulePath, message, None);
            && r.Panicked?
            && |bare| >= 2 && bare[|bare| - 2..] == "\n\n"
            && (u.OptionValue? ==> r.text == bare)
            && (u.ResultValue? ==> r.text == bare + debugErr(u.result.error) + "\n\n")
  {
    PanicTextIsDiagnostic(u, message, modulePath, file, lineNumber, column, debugErr);
    EndsWithBlankLine(FailureKind(u), file, lineNumber as nat, column as nat, modulePath, message);
    if u.ResultValue? {
      PayloadAppended(ResultErr, file, lineNumber as nat, column as nat, modulePath, message, debugErr(u.result.error));
    }
  }

  /** The crate's own test cases: `Ok(32)` and `Some(32)` give 32, `Err(32)` and `None` panic, with or without a message. */
  lemma SourceTestCases(site: CallSite, debugErr: u32 -> string)
    ensures UnwrapMacro<u32, u32>(ResultValue(Ok(32)), site, debugErr) == Returned(32)
    ensures UnwrapMacroWithMessage<u32, u32>(ResultValue(Ok(32)), "Here's a message", site, debugErr) == Returned(32)
    ensures UnwrapMacroWithMessage<u32, u32>(ResultValue(Err(32)), "Here's a message", site, debugErr).Panicked?
    ensures UnwrapMacro<u32, u32>(ResultValue(Err(32)), site, debugErr).Panicked?
    ensures UnwrapMacro<u32, u32>(OptionValue(Some(32)), site, debugErr) == Returned(32)
    ensures UnwrapMacroWithMessage<u32, u32>(OptionValue(Some(32)), "Here's a message", site, debugErr) == Returned(32)
    ensures UnwrapMacroWithMessage<u32, u32>(OptionValue(None), "Here's a message", site, debugErr).Panicked?
    ensures UnwrapMacro<u32, u32>(OptionValue(None), site, debugErr).Panicked?
  {
  }
}
