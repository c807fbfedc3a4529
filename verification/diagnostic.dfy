/**
 The text `verbose_unwrap` panics with, and a reader for it.

 The text is a banner of three 80-column lines after two leading newlines, the
 location line `file:line,column in module_path`, the optional user message on
 a line of its own, a blank line and, for `Result` only, the pretty-debug
 rendering of the failing value followed by two newlines. `ParseDiagnostic`
 recovers every field from the text, so the layout loses nothing.
 */
module Diagnostic {
  import opened Core
  import Decimal

  /** Which impl panicked: the `Result` impl on `Err`, or the `Option` impl on `None`. */
  datatype Kind = ResultErr | OptionNone

  function VariantName(kind: Kind): string {
    match kind
    case ResultErr => "Result::Err"
    case OptionNone => "Option::None"
  }

  /** Banner lines are this many columns wide. */
  const Width: nat := 80

  function Repeat(c: char, n: nat): (s: string)
    ensures |s| == n && forall i :: 0 <= i < n ==> s[i] == c
  {
    if n == 0 then [] else Repeat(c, n - 1) + [c]
  }

  /** The rule line above and below the header: a full row of `!`. */
  function Rule(): string {
    Repeat('!', Width)
  }

  const HeaderLead: string := "!   unwrap! called on "

  /** The header line naming the variant, padded with spaces to a closing `!` in the last column. */
  function Header(kind: Kind): string {
    HeaderLead + VariantName(kind) + Repeat(' ', Width - 1 - |HeaderLead| - |VariantName(kind)|) + "!"
  }

  /** Two newlines, rule, header, rule: everything before the location line. */
  function Banner(kind: Kind): string {
    "\n\n" + Rule() + "\n" + Header(kind) + "\n" + Rule() + "\n"
  }

  /** `{}:{},{} in {}` filled with file, line, column and module path. */
  function LocationLine(file: string, line: nat, column: nat, modulePath: string): string {
    Place(file, line, column) + " in " + modulePath
  }

  /** `file:line,column`, both numbers in decimal. */
  function Place(file: string, line: nat, column: nat): string {
    file + ":" + Decimal.Show(line) + "," + Decimal.Show(column)
  }

  /** The message on a line of its own, or nothing. */
  function MessageLine(message: Option<string>): string {
    match message
    case Some(m) => m + "\n"
    case None => ""
  }

  /** The blank line, then the payload and two newlines when there is a payload. */
  function Closing(payload: Option<string>): string {
    match payload
    case Some(p) => "\n" + p + "\n\n"
    case None => "\n"
  }

  /** Everything after the banner. */
  function Body(file: string, line: nat, column: nat, modulePath: string,
                message: Option<string>, payload: Option<string>): string {
    LocationLine(file, line, column, modulePath) + "\n" + (MessageLine(message) + Closing(payload))
  }

  /**
   The panic text. `message` is the user's message, `payload` the `{:#?}` rendering
   of the failing value (present in the `Result` impl, absent in the `Option` impl).
   */
  function DiagnosticText(kind: Kind, file: string, line: nat, column: nat, modulePath: string,
                          message: Option<string>, payload: Option<string>): (s: string)
    ensures Banner(kind) <= s
    ensures |s| >= |Banner(kind)| + 2 && s[|s| - 2..] == "\n\n"
  {
    var loc := LocationLine(file, line, column, modulePath);
    match payload
    case None =>
      NewlineTwice(Banner(kind), loc, MessageLine(message));
      Banner(kind) + Body(file, line, column, modulePath, message, payload)
    case Some(p) =>
      PayloadLast(Banner(kind), loc, MessageLine(message), p);
      Banner(kind) + Body(file, line, column, modulePath, message, payload)
  }

  /** Everything a panic text says, as `ParseDiagnostic` reads it back. */
  datatype Report = Report(kind: Kind, file: string, line: nat, column: nat, modulePath: string,
                           message: Option<string>, payload: Option<string>)

  /**
   The fields for which the text can be read back unambiguously: no newline in the
   file, the module path or the message, no space in the module path (Rust module
   paths are `::`-separated identifiers), and a payload that is non-empty and does
   not start with a newline (a debug rendering starts with the variant's name).
   */
  predicate Renderable(file: string, modulePath: string, message: Option<string>, payload: Option<string>) {
    && '\n' !in file
    && '\n' !in modulePath
    && ' ' !in modulePath
    && (message.Some? ==> '\n' !in message.value)
    && (payload.Some? ==> |payload.value| > 0 && payload.value[0] != '\n')
  }

  /** Position of the first `c` in `s`, or `|s|` when there is none. */
  function IndexOf(s: string, c: char): (i: nat)
    ensures i <= |s|
    ensures i < |s| ==> s[i] == c
    ensures forall j :: 0 <= j < i ==> s[j] != c
  {
    if s == [] then 0
    else if s[0] == c then 0
    else 1 + IndexOf(s[1..], c)
  }

  /** Position of the last `c` in `s`, or -1 when there is none. */
  function LastIndexOf(s: string, c: char): (i: int)
    ensures -1 <= i < |s|
    ensures 0 <= i ==> s[i] == c
    ensures forall j :: i < j < |s| ==> s[j] != c
  {
    if s == [] then -1
    else if s[|s| - 1] == c then |s| - 1
    else LastIndexOf(s[..|s| - 1], c)
  }

  /** Reads `file:line,column in module_path`, from the right, so that the file may hold any character. */
  function ParseLocation(s: string): Option<(string, nat, nat, string)> {
    var space := LastIndexOf(s, ' ');
    if space < 3 || s[space - 3..space + 1] != " in " then None
    else
      match ParsePlace(s[..space - 3])
      case Some((file, line, column)) => Some((file, line, column, s[space + 1..]))
      case None => None
  }

  /** Reads `file:line,column`: the column after the last comma, the line after the last colon before it. */
  function ParsePlace(s: string): Option<(string, nat, nat)> {
    var comma := LastIndexOf(s, ',');
    if comma < 0 then None
    else
      var colon := LastIndexOf(s[..comma], ':');
      if colon < 0 then None
      else
        match (Decimal.Parse(s[colon + 1..comma]), Decimal.Parse(s[comma + 1..]))
        case (Some(line), Some(column)) => Some((s[..colon], line, column))
        case _ => None
  }

  /** Reads the blank line and, if more follows, the payload and its two newlines. */
  function ParseClosing(s: string): Option<Option<string>> {
    if s == "\n" then Some(None)
    else if |s| >= 4 && s[0] == '\n' && s[1] != '\n' && s[|s| - 2..] == "\n\n" then Some(Some(s[1..|s| - 2]))
    else None
  }

  /**
   Reads what follows the location line. A first line that is empty is the blank
   line (no message) unless a second empty line follows, in which case it was an
   empty message.
   */
  function ParseTail(s: string): Option<(Option<string>, Option<string>)> {
    var eol := IndexOf(s, '\n');
    if eol == |s| then None
    else
      var noMessage := eol == 0 && (|s| == 1 || s[1] != '\n');
      var message := if noMessage then None else Some(s[..eol]);
      var closing := if noMessage then s else s[eol + 1..];
      match ParseClosing(closing)
      case Some(payload) => Some((message, payload))
      case None => None
  }

  /** Reads the location line and what follows it. */
  function ParseBody(kind: Kind, s: string): Option<Report> {
    var eol := IndexOf(s, '\n');
    if eol == |s| then None
    else
      match ParseLocation(s[..eol])
      case None => None
      case Some((file, line, column, modulePath)) =>
        match ParseTail(s[eol + 1..])
        case None => None
        case Some((message, payload)) => Some(Report(kind, file, line, column, modulePath, message, payload))
  }

  /** The kind a banner announces; `None` for anything that is not a banner. */
  function ReadBanner(s: string): Option<Kind> {
    if s == Banner(ResultErr) then Some(ResultErr)
    else if s == Banner(OptionNone) then Some(OptionNone)
    else None
  }

  /** The `Result` impl always prints the failing value; the `Option` impl never prints one. */
  predicate PayloadFits(kind: Kind, payload: Option<string>) {
    (kind == ResultErr) == payload.Some?
  }

  /** Reads a panic text back into its fields; `None` for a text no panic produces. */
  function ParseDiagnostic(text: string): Option<Report> {
    var n := |Banner(ResultErr)|;
    if |text| < n then None
    else
      match ReadBanner(text[..n])
      case Some(kind) =>
        var r := ParseBody(kind, text[n..]);
        if r.Some? && PayloadFits(kind, r.value.payload) then r else None
      case None => None
  }

  // ----- Layout of the text -----

  /** Both banners are 245 characters: rules of 80 `!`, the header padded to 80 columns. */
  lemma BannerLayout(kind: Kind)
    ensures |Rule()| == Width && forall i :: 0 <= i < Width ==> Rule()[i] == '!'
    ensures |Header(kind)| == Width && Header(kind)[0] == '!' && Header(kind)[Width - 1] == '!'
    ensures Header(kind)[..|HeaderLead|] == HeaderLead
    ensures Header(kind)[|HeaderLead|..|HeaderLead| + |VariantName(kind)|] == VariantName(kind)
    ensures forall i :: |HeaderLead| + |VariantName(kind)| <= i < Width - 1 ==> Header(kind)[i] == ' '
    ensures |Banner(kind)| == 245
  {
  }

  lemma BannersDiffer()
    ensures Banner(ResultErr) != Banner(OptionNone)
  {
    BannerLayout(ResultErr);
    BannerLayout(OptionNone);
    assert Banner(ResultErr)[83 + |HeaderLead|] == 'R';
    assert Banner(OptionNone)[83 + |HeaderLead|] == 'O';
  }

  /**
   The location line directly follows the banner, and is the same whatever the
   kind, message and payload.
   */
  lemma LocationAfterBanner(kind: Kind, file: string, line: nat, column: nat, modulePath: string,
                            message: Option<string>, payload: Option<string>)
    ensures var text := DiagnosticText(kind, file, line, column, modulePath, message, payload);
            var start := |Banner(kind)|;
            var loc := LocationLine(file, line, column, modulePath);
            && text[..start] == Banner(kind)
            && text[start..start + |loc| + 1] == loc + "\n"
  {
  }

  /**
   Behind `MessageInserted`, on plain strings: the message line `line` takes the
   place of the absent one, just before the closing `c`.
   */
  lemma InsertBetween(x: string, y: string, line: string, c: string)
    requires c != []
    ensures var without := x + (y + (MessageLine(None) + c));
            && |x| + |y| < |without| && without[|x| + |y|] == c[0]
            && x + (y + (line + c)) == without[..|x| + |y|] + line + without[|x| + |y|..]
  {
    var without := x + (y + (MessageLine(None) + c));
    assert without[..|x| + |y|] == x + y;
    assert without[|x| + |y|..] == c;
  }

  /**
   A message adds exactly one line, right after the location line; without a
   message the location line is followed directly by the blank line.
   */
  lemma MessageInserted(kind: Kind, file: string, line: nat, column: nat, modulePath: string,
                        m: string, payload: Option<string>)
    ensures var without := DiagnosticText(kind, file, line, column, modulePath, None, payload);
            var with := DiagnosticText(kind, file, line, column, modulePath, Some(m), payload);
            var k := |Banner(kind)| + |LocationLine(file, line, column, modulePath)| + 1;
            && k < |without|
            && without[k] == '\n'
            && with == without[..k] + (m + "\n") + without[k..]
  {
    var loc := LocationLine(file, line, column, modulePath);
    InsertBetween(Banner(kind), loc + "\n", MessageLine(Some(m)), Closing(payload));
  }

  /** Re-association behind `PayloadAppended`, on plain strings. */
  lemma AppendAtEnd(x: string, y: string, z: string, p: string)
    ensures x + (y + (z + ("\n" + p + "\n\n"))) == x + (y + (z + "\n")) + p + "\n\n"
  {
  }

  /**
   The payload comes last: the text with a payload is the text without one,
   followed by the payload and two newlines.
   */
  lemma PayloadAppended(kind: Kind, file: string, line: nat, column: nat, modulePath: string,
                        message: Option<string>, p: string)
    ensures DiagnosticText(kind, file, line, column, modulePath, message, Some(p))
            == DiagnosticText(kind, file, line, column, modulePath, message, None) + p + "\n\n"
  {
    AppendAtEnd(Banner(kind), LocationLine(file, line, column, modulePath) + "\n", MessageLine(message), p);
  }

  /** The last line ends in a newline whether or not a line `z` follows `y`; then one more newline. */
  lemma NewlineTwice(x: string, y: string, z: string)
    requires z == [] || z[|z| - 1] == '\n'
    ensures var t := x + (y + "\n" + (z + "\n"));
            |t| >= 2 && t[|t| - 2..] == "\n\n"
  {
    var w := x + (y + "\n" + z);
    assert x + (y + "\n" + (z + "\n")) == w + "\n";
    assert w[|w| - 1] == '\n';
  }

  /** With a payload, the text ends with the two newlines after it. */
  lemma PayloadLast(x: string, y: string, z: string, p: string)
    ensures var t := x + (y + "\n" + (z + ("\n" + p + "\n\n")));
            |t| >= 2 && t[|t| - 2..] == "\n\n"
  {
    var w := x + (y + "\n" + (z + ("\n" + p)));
    assert x + (y + "\n" + (z + ("\n" + p + "\n\n"))) == w + "\n\n";
  }

  /**
   Without a payload the text ends with a blank line, right after the location
   line or the message line.
   */
  lemma EndsWithBlankLine(kind: Kind, file: string, line: nat, column: nat, modulePath: string,
                          message: Option<string>)
    ensures var text := DiagnosticText(kind, file, line, column, modulePath, message, None);
            |text| >= 2 && text[|text| - 2..] == "\n\n"
  {
    NewlineTwice(Banner(kind), LocationLine(file, line, column, modulePath), MessageLine(message));
  }

  // ----- Reading a text back: helpers -----

  /** The first `c` after a `c`-free prefix is the one that ends it. */
  lemma IndexOfAfter(a: string, c: char, b: string)
    requires c !in a
    ensures IndexOf(a + [c] + b, c) == |a|
  {
    assert (a + [c] + b)[|a|] == c;
  }

  /** The last `c` before a `c`-free suffix is the one that starts it. */
  lemma LastIndexOfBefore(a: string, c: char, b: string)
    requires c !in b
    ensures LastIndexOf(a + [c] + b, c) == |a|
  {
    assert (a + [c] + b)[|a|] == c;
  }

  /** Everything before the first `c` is `c`-free. */
  lemma BeforeIndexOf(s: string, c: char)
    ensures c !in s[..IndexOf(s, c)]
  {
    var i := IndexOf(s, c);
    assert forall j :: 0 <= j < i ==> s[..i][j] != c;
  }

  /** A string is what comes before position `i` followed by what comes from it on. */
  lemma Halves(s: string, i: nat)
    requires i <= |s|
    ensures s == s[..i] + s[i..]
  {
  }

  /** A string is what comes before position `i`, the character there, and what follows. */
  lemma SplitAt(s: string, i: nat)
    requires i < |s|
    ensures s == s[..i] + [s[i]] + s[i + 1..]
  {
  }

  // ----- Round trip: rendering, then reading -----

  lemma ParsePlaceText(file: string, line: nat, column: nat)
    ensures ParsePlace(Place(file, line, column)) == Some((file, line, column))
  {
    var l, c := Decimal.Show(line), Decimal.Show(column);
    Decimal.DigitsExclude(l, ':');
    Decimal.DigitsExclude(c, ',');
    Decimal.ParseShow(line);
    Decimal.ParseShow(column);
    var s := Place(file, line, column);
    LastIndexOfBefore(file + ":" + l, ',', c);
    var comma := |file| + 1 + |l|;
    assert s[..comma] == file + [':'] + l;
    LastIndexOfBefore(file, ':', l);
    assert s[..|file|] == file;
    assert s[|file| + 1..comma] == l;
    assert s[comma + 1..] == c;
  }

  /** In `place in module_path` with a space-free module path, the last space is the one after `in`. */
  lemma LastSpace(place: string, modulePath: string)
    requires ' ' !in modulePath
    ensures var s := place + " in " + modulePath;
            var space := |place| + 3;
            && LastIndexOf(s, ' ') == space
            && s[space - 3..space + 1] == " in "
            && s[..space - 3] == place
            && s[space + 1..] == modulePath
  {
    var s := place + " in " + modulePath;
    assert s == (place + " in") + [' '] + modulePath;
    LastIndexOfBefore(place + " in", ' ', modulePath);
  }

  lemma ParseLocationLine(file: string, line: nat, column: nat, modulePath: string)
    requires ' ' !in modulePath
    ensures ParseLocation(LocationLine(file, line, column, modulePath)) == Some((file, line, column, modulePath))
  {
    LastSpace(Place(file, line, column), modulePath);
    ParsePlaceText(file, line, column);
  }

  lemma ParseClosingText(payload: Option<string>)
    requires payload.Some? ==> |payload.value| > 0 && payload.value[0] != '\n'
    ensures ParseClosing(Closing(payload)) == Some(payload)
  {
    if payload.Some? {
      var s := Closing(payload);
      assert s[1..|s| - 2] == payload.value;
    }
  }

  lemma ParseTailText(message: Option<string>, payload: Option<string>)
    requires message.Some? ==> '\n' !in message.value
    requires payload.Some? ==> |payload.value| > 0 && payload.value[0] != '\n'
    ensures ParseTail(MessageLine(message) + Closing(payload)) == Some((message, payload))
  {
    var closing := Closing(payload);
    ParseClosingText(payload);
    match message
    case None =>
      assert MessageLine(message) + closing == closing;
    case Some(m) =>
      var s := m + ['\n'] + closing;
      assert MessageLine(message) + closing == s;
      IndexOfAfter(m, '\n', closing);
      assert s[..|m|] == m;
      assert s[|m| + 1..] == closing;
  }

  lemma ParseBodyText(kind: Kind, file: string, line: nat, column: nat, modulePath: string,
                      message: Option<string>, payload: Option<string>)
    requires Renderable(file, modulePath, message, payload)
    ensures ParseBody(kind, Body(file, line, column, modulePath, message, payload))
            == Some(Report(kind, file, line, column, modulePath, message, payload))
  {
    var loc := LocationLine(file, line, column, modulePath);
    var tail := MessageLine(message) + Closing(payload);
    var s := loc + ['\n'] + tail;
    assert '\n' !in loc by {
      Decimal.DigitsExclude(Decimal.Show(line), '\n');
      Decimal.DigitsExclude(Decimal.Show(column), '\n');
    }
    IndexOfAfter(loc, '\n', tail);
    assert s[..|loc|] == loc;
    assert s[|loc| + 1..] == tail;
    ParseLocationLine(file, line, column, modulePath);
    ParseTailText(message, payload);
  }

  lemma ReadBannerOf(kind: Kind)
    ensures ReadBanner(Banner(kind)) == Some(kind)
  {
    BannersDiffer();
  }

  /**
   Round trip: the panic text determines kind, file, line, column, module path,
   message and payload.
   */
  lemma ParseDiagnosticText(kind: Kind, file: string, line: nat, column: nat, modulePath: string,
                            message: Option<string>, payload: Option<string>)
    requires Renderable(file, modulePath, message, payload)
    requires PayloadFits(kind, payload)
    ensures ParseDiagnostic(DiagnosticText(kind, file, line, column, modulePath, message, payload))
            == Some(Report(kind, file, line, column, modulePath, message, payload))
  {
    var text := DiagnosticText(kind, file, line, column, modulePath, message, payload);
    var n := |Banner(ResultErr)|;
    assert |Banner(kind)| == n by {
      BannerLayout(ResultErr);
      BannerLayout(kind);
    }
    assert text[..n] == Banner(kind);
    assert text[n..] == Body(file, line, column, modulePath, message, payload);
    ReadBannerOf(kind);
    ParseBodyText(kind, file, line, column, modulePath, message, payload);
  }

  // ----- Round trip: reading, then rendering -----

  lemma ParsePlaceSound(s: string, file: string, line: nat, column: nat)
    requires ParsePlace(s) == Some((file, line, column))
    ensures s == Place(file, line, column)
  {
    var comma := LastIndexOf(s, ',');
    var colon := LastIndexOf(s[..comma], ':');
    assert s == s[..colon] + [s[colon]] + s[colon + 1..comma] + [s[comma]] + s[comma + 1..];
  }

  lemma ParseLocationSound(s: string, file: string, line: nat, column: nat, modulePath: string)
    requires ParseLocation(s) == Some((file, line, column, modulePath))
    ensures s == LocationLine(file, line, column, modulePath)
    ensures ' ' !in modulePath
  {
    var space := LastIndexOf(s, ' ');
    ParsePlaceSound(s[..space - 3], file, line, column);
    assert s == s[..space - 3] + s[space - 3..space + 1] + s[space + 1..];
  }

  lemma ParseClosingSound(s: string, payload: Option<string>)
    requires ParseClosing(s) == Some(payload)
    ensures s == Closing(payload)
    ensures payload.Some? ==> |payload.value| > 0 && payload.value[0] != '\n'
  {
    if payload.Some? {
      assert s == [s[0]] + s[1..|s| - 2] + s[|s| - 2..];
    }
  }

  lemma ParseTailSound(s: string, message: Option<string>, payload: Option<string>)
    requires ParseTail(s) == Some((message, payload))
    ensures s == MessageLine(message) + Closing(payload)
    ensures message.Some? ==> '\n' !in message.value
    ensures payload.Some? ==> |payload.value| > 0 && payload.value[0] != '\n'
  {
    var eol := IndexOf(s, '\n');
    var noMessage := eol == 0 && (|s| == 1 || s[1] != '\n');
    if noMessage {
      ParseClosingSound(s, payload);
      assert s == MessageLine(message) + Closing(payload);
    } else {
      var m := s[..eol];
      ParseClosingSound(s[eol + 1..], payload);
      BeforeIndexOf(s, '\n');
      SplitAt(s, eol);
    }
  }

  /** A newline-free location line has a newline-free file and module path. */
  lemma LocationLineParts(file: string, line: nat, column: nat, modulePath: string)
    requires '\n' !in LocationLine(file, line, column, modulePath)
    ensures '\n' !in file && '\n' !in modulePath
  {
  }

  lemma ParseBodySound(kind: Kind, s: string, r: Report)
    requires ParseBody(kind, s) == Some(r)
    ensures r.kind == kind
    ensures Renderable(r.file, r.modulePath, r.message, r.payload)
    ensures s == Body(r.file, r.line, r.column, r.modulePath, r.message, r.payload)
  {
    var eol := IndexOf(s, '\n');
    var loc, rest := s[..eol], s[eol + 1..];
    assert ParseLocation(loc) == Some((r.file, r.line, r.column, r.modulePath))
        && ParseTail(rest) == Some((r.message, r.payload)) && r.kind == kind by {
      var location := ParseLocation(loc).value;
      var tail := ParseTail(rest).value;
      assert r == Report(kind, location.0, location.1, location.2, location.3, tail.0, tail.1);
    }
    assert loc == LocationLine(r.file, r.line, r.column, r.modulePath) && ' ' !in r.modulePath by {
      ParseLocationSound(loc, r.file, r.line, r.column, r.modulePath);
    }
    assert '\n' !in r.file && '\n' !in r.modulePath by {
      BeforeIndexOf(s, '\n');
      LocationLineParts(r.file, r.line, r.column, r.modulePath);
    }
    ParseTailSound(rest, r.message, r.payload);
    assert s == loc + "\n" + rest by {
      SplitAt(s, eol);
    }
  }

  lemma ReadBannerSound(s: string, kind: Kind)
    requires ReadBanner(s) == Some(kind)
    ensures s == Banner(kind)
  {
  }

  /**
   The other direction: every text the reader accepts is the panic text of the
   fields it returns, those fields are renderable, and the payload is present
   exactly for `Result::Err`. With `ParseDiagnosticText`, such field sets and the
   texts they produce correspond one to one.
   */
  lemma ParseDiagnosticSound(text: string, r: Report)
    requires ParseDiagnostic(text) == Some(r)
    ensures Renderable(r.file, r.modulePath, r.message, r.payload)
    ensures PayloadFits(r.kind, r.payload)
    ensures text == DiagnosticText(r.kind, r.file, r.line, r.column, r.modulePath, r.message, r.payload)
  {
    var n := |Banner(ResultErr)|;
    ReadBannerSound(text[..n], r.kind);
    ParseBodySound(r.kind, text[n..], r);
    Halves(text, n);
  }
}
