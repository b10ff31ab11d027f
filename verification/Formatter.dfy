/**
 The two deferred formatters: FormatMessage of src/telemetry_console_binding.cpp and FormatInto of
 src/telemetry_unbound.cpp, both against one unbounded rendering.

 snprintf is a parameter: it maps a directive and a value to the whole text it would print. A C string is its
 characters up to the terminator.
 */
module Formatter {
  import opened ArgPack
  import opened FormatSpec

  /** What is passed to printf. */
  datatype Value = Num(x: int) | Dbl(bits: nat) | Txt(s: string)

  type Printf = (string, Value) -> string

  // ---- one unbounded rendering ----

  /** The index of the first '}', or the length. */
  function Close(s: string): (j: nat)
    ensures j <= |s| && '}' !in s[..j] && (j < |s| ==> s[j] == '}')
  {
    if |s| == 0 || s[0] == '}' then 0 else
      assert s[..1 + Close(s[1..])] == [s[0]] + s[1..][..Close(s[1..])];
      1 + Close(s[1..])
  }

  /** How a placeholder with the given text between its braces shows an argument. */
  type Shower = (Arg, string) -> string

  function Hole(args: seq<Arg>, next: nat, body: string, show: Shower): string {
    if next < |args| then show(args[next], body) else "{?}"
  }

  function After(args: seq<Arg>, next: nat): nat {
    if next < |args| then next + 1 else next
  }

  /** The message: doubled braces stand for one, each placeholder takes the next argument, an open one ends the text. */
  function Render(fmt: string, args: seq<Arg>, next: nat, show: Shower): string
    decreases |fmt|
  {
    if |fmt| == 0 then ""
    else if |fmt| >= 2 && fmt[0] == '{' && fmt[1] == '{' then "{" + Render(fmt[2..], args, next, show)
    else if |fmt| >= 2 && fmt[0] == '}' && fmt[1] == '}' then "}" + Render(fmt[2..], args, next, show)
    else if fmt[0] == '{' then
      var j := Close(fmt);
      if j == |fmt| then ""
      else Hole(args, next, fmt[1..j], show) + Render(fmt[j + 1..], args, After(args, next), show)
    else [fmt[0]] + Render(fmt[1..], args, next, show)
  }

  // ---- what the format language means ----

  datatype Piece = Literal(s: string) | Placeholder(body: string)

  predicate Proper(x: Piece) {
    x.Placeholder? ==> '}' !in x.body && (x.body != "" ==> x.body[0] != '{')
  }

  /** Every brace doubled. */
  function Escape(s: string): string {
    if |s| == 0 then ""
    else EscapedChar(s[0]) + Escape(s[1..])
  }

  function Source(xs: seq<Piece>): string {
    if |xs| == 0 then ""
    else (match xs[0]
          case Literal(s) => Escape(s)
          case Placeholder(body) => "{" + body + "}") + Source(xs[1..])
  }

  function Expansion(xs: seq<Piece>, args: seq<Arg>, next: nat, show: Shower): string {
    if |xs| == 0 then ""
    else match xs[0]
      case Literal(s) => s + Expansion(xs[1..], args, next, show)
      case Placeholder(body) => Hole(args, next, body, show) + Expansion(xs[1..], args, After(args, next), show)
  }

  function EscapedChar(c: char): string {
    if c == '{' || c == '}' then [c, c] else [c]
  }

  lemma CharThenRest(c: char, rest: string, args: seq<Arg>, next: nat, show: Shower)
    ensures Render(EscapedChar(c) + rest, args, next, show) == [c] + Render(rest, args, next, show)
  {
    var fmt := EscapedChar(c) + rest;
    assert fmt[|EscapedChar(c)|..] == rest;
  }

  lemma {:induction false} EscapedThenRest(s: string, rest: string, args: seq<Arg>, next: nat, show: Shower)
    ensures Render(Escape(s) + rest, args, next, show) == s + Render(rest, args, next, show)
  {
    if |s| == 0 {
      assert Escape(s) + rest == rest;
    } else {
      assert Escape(s) + rest == EscapedChar(s[0]) + (Escape(s[1..]) + rest);
      CharThenRest(s[0], Escape(s[1..]) + rest, args, next, show);
      EscapedThenRest(s[1..], rest, args, next, show);
      assert s == [s[0]] + s[1..];
    }
  }

  lemma {:induction false} CloseAt(s: string, k: nat)
    requires k < |s| && s[k] == '}' && '}' !in s[..k]
    ensures Close(s) == k
  {
    if k > 0 {
      assert s[0] == s[..k][0];
      assert s[1..][..k - 1] == s[..k][1..];
      CloseAt(s[1..], k - 1);
    }
  }

  lemma CloseOf(body: string, rest: string)
    requires '}' !in body
    ensures Close("{" + body + "}" + rest) == |body| + 1
  {
    var s := "{" + body + "}" + rest;
    assert s[..|body| + 1] == "{" + body;
    CloseAt(s, |body| + 1);
  }

  lemma HoleThenRest(body: string, rest: string, args: seq<Arg>, next: nat, show: Shower)
    requires Proper(Placeholder(body))
    ensures Render("{" + body + "}" + rest, args, next, show)
         == Hole(args, next, body, show) + Render(rest, args, After(args, next), show)
  {
    var fmt := "{" + body + "}" + rest;
    CloseOf(body, rest);
    assert fmt[1..|body| + 1] == body && fmt[|body| + 2..] == rest;
    assert fmt[1] == if body == "" then '}' else body[0];
  }

  /** A format written from literals and placeholders renders to the literals and the arguments in turn. */
  lemma {:induction false} RendersItsPieces(xs: seq<Piece>, args: seq<Arg>, next: nat, show: Shower)
    requires forall x | x in xs :: Proper(x)
    ensures Render(Source(xs), args, next, show) == Expansion(xs, args, next, show)
  {
    if |xs| > 0 {
      match xs[0]
      case Literal(s) =>
        EscapedThenRest(s, Source(xs[1..]), args, next, show);
        RendersItsPieces(xs[1..], args, next, show);
      case Placeholder(body) =>
        HoleThenRest(body, Source(xs[1..]), args, next, show);
        RendersItsPieces(xs[1..], args, After(args, next), show);
    }
  }

  /** Doubling every brace of a text and formatting it gives the text back. */
  lemma BracesRoundTrip(s: string, args: seq<Arg>, show: Shower)
    ensures Render(Escape(s), args, 0, show) == s
  {
    EscapedThenRest(s, "", args, 0, show);
    assert Escape(s) + "" == Escape(s);
  }

  // ---- how the console formatter shows an argument ----

  const NUMERIC_BYTES: nat := 192
  const DIRECTIVE_BYTES: nat := 24
  const DEFAULT := NONE.(ok := true)

  function Decimal(n: nat): string {
    (if n < 10 then "" else Decimal(n / 10)) + [('0' as int + n % 10) as char]
  }

  function Directive(spec: FmtSpec, conv: string): string {
    "%" + (if spec.zero then "0" else "")
    + (if spec.width >= 0 then Decimal(spec.width) else "")
    + (if spec.prec >= 0 then "." + Decimal(spec.prec) else "") + conv
  }

  predicate Clamped(spec: FmtSpec) {
    spec.width <= MAX_WIDTH && spec.prec <= MAX_PREC
  }

  /** A directive with clamped numbers fits its 24-byte buffer. */
  lemma DirectiveFits(spec: FmtSpec, conv: string)
    requires Clamped(spec) && |conv| <= 3
    ensures |Directive(spec, conv)| < DIRECTIVE_BYTES
  {
    if spec.width >= 10 { assert Decimal(spec.width / 10) == [('0' as int + spec.width / 10 % 10) as char]; }
    if spec.prec >= 10 { assert Decimal(spec.prec / 10) == [('0' as int + spec.prec / 10 % 10) as char]; }
  }

  /** A numeric field: at most 191 characters of what printf renders. */
  function Numeric(pf: Printf, spec: FmtSpec, conv: string, v: Value): string {
    var s := pf(Directive(spec, conv), v);
    if |s| < NUMERIC_BYTES then s else s[..NUMERIC_BYTES - 1]
  }

  function BoolName(b: bool): string {
    if b then "true" else "false"
  }

  function Spaces(n: nat): string {
    seq(n, i => ' ')
  }

  predicate Integral(kind: char) {
    kind == 'd' || kind == 'x' || kind == 'X' || kind == 'o'
  }

  predicate Radix(kind: char) {
    kind == 'x' || kind == 'X' || kind == 'o'
  }

  predicate Real(kind: char) {
    kind == 'f' || kind == 'F' || kind == 'e' || kind == 'E' || kind == 'g' || kind == 'G'
  }

  predicate Textual(spec: FmtSpec) {
    spec.ok && (spec.kind == 's' || spec.kind == '\0') && !spec.zero
  }

  /** Left-aligned: cut to the precision, padded to the width. */
  function StringField(s: string, spec: FmtSpec): string {
    var n := if 0 <= spec.prec < |s| then spec.prec else |s|;
    s[..n] + Spaces(if spec.width > n then spec.width - n else 0)
  }

  /** The rendering of one argument: a specification that does not apply to its type is dropped. */
  function Shown(pf: Printf, a: Arg, spec: FmtSpec): string {
    match a
    case Bool(b) =>
      if spec.ok && spec.prec < 0 && Integral(spec.kind) then
        Numeric(pf, spec, "ll" + [spec.kind], Num(if b then 1 else 0))
      else if Textual(spec) then Numeric(pf, spec.(prec := -1), "s", Txt(BoolName(b)))
      else BoolName(b)
    case I64(i) =>
      if spec.ok && spec.prec < 0 && (spec.kind == 'd' || spec.kind == '\0') then Numeric(pf, spec, "lld", Num(i))
      else if spec.ok && spec.prec < 0 && Radix(spec.kind) then
        Numeric(pf, spec, "ll" + [spec.kind], Num(Wrap(i)))
      else Numeric(pf, NONE, "lld", Num(i))
    case U64(u) =>
      if spec.ok && spec.prec < 0 && (spec.kind == 'd' || spec.kind == '\0') then Numeric(pf, spec, "llu", Num(u))
      else if spec.ok && spec.prec < 0 && Radix(spec.kind) then Numeric(pf, spec, "ll" + [spec.kind], Num(u))
      else Numeric(pf, NONE, "llu", Num(u))
    case F64(bits) =>
      if spec.ok && (Real(spec.kind) || spec.kind == '\0') then
        Numeric(pf, spec, [if spec.kind == '\0' then 'g' else spec.kind], Dbl(bits))
      else Numeric(pf, NONE, "g", Dbl(bits))
    case Str(s) => if Textual(spec) then StringField(s, spec) else s
  }

  /** Which specifications apply to which arguments. */
  predicate Applies(a: Arg, spec: FmtSpec) {
    spec.ok &&
    match a
    case Bool(_) => (spec.prec < 0 && Integral(spec.kind)) || Textual(spec)
    case I64(_) | U64(_) => spec.prec < 0 && (Integral(spec.kind) || spec.kind == '\0')
    case F64(_) => Real(spec.kind) || spec.kind == '\0'
    case Str(_) => Textual(spec)
  }

  /** A specification that does not apply to the argument's type falls back to the default rendering. */
  lemma FallsBack(pf: Printf, a: Arg, spec: FmtSpec)
    requires !Applies(a, spec)
    ensures Shown(pf, a, spec) == Shown(pf, a, NONE)
  {
  }

  /** A string field is as wide as asked for, starts with the string or its first characters, and ends in blanks. */
  lemma StringFieldShape(s: string, spec: FmtSpec)
    ensures var r := StringField(s, spec);
            var n := if 0 <= spec.prec < |s| then spec.prec else |s|;
            && |r| == (if spec.width > n then spec.width else n)
            && r[..n] == s[..n] && forall k | n <= k < |r| :: r[k] == ' '
  {
  }

  /** The specification of a placeholder: positional and named ones fall back to the default rendering. */
  function SpecFor(body: string): FmtSpec {
    if body == "" then DEFAULT
    else if body[0] == ':' then SpecOf(body[1..])
    else NONE
  }

  function Console(pf: Printf): Shower {
    (a, body) => Shown(pf, a, SpecFor(body))
  }

  // ---- how the unbound formatter shows an argument ----

  function Plain(pf: Printf, a: Arg): string {
    match a
    case Bool(b) => pf("%s", Txt(BoolName(b)))
    case I64(i) => pf("%ld", Num(i))
    case U64(u) => pf("%lu", Num(u))
    case F64(bits) => pf("%g", Dbl(bits))
    case Str(s) => s
  }

  function Unbound(pf: Printf): Shower {
    (a, body) => Plain(pf, a)
  }

  // ---- the two agree where no specification applies ----

  /** What C promises of the plain directives on a platform where long is 64 bits wide. */
  ghost predicate Libc(pf: Printf) {
    && (forall s :: pf("%s", Txt(s)) == s)
    && (forall v :: pf("%lld", v) == pf("%ld", v) && pf("%llu", v) == pf("%lu", v))
    && (forall i | -(TWO64 / 2) <= i < TWO64 / 2 :: |pf("%ld", Num(i))| <= 20)
    && (forall u | 0 <= u < TWO64 :: |pf("%lu", Num(u))| <= 20)
    && (forall bits :: |pf("%g", Dbl(bits))| < 64)
  }

  /** The placeholder is bare, or outside the subset, or specifies nothing. */
  predicate Default(body: string) {
    !SpecFor(body).ok || SpecFor(body) == DEFAULT
  }

  predicate AllDefault(fmt: string)
    decreases |fmt|
  {
    if |fmt| == 0 then true
    else if |fmt| >= 2 && (fmt[0] == '{' || fmt[0] == '}') && fmt[1] == fmt[0] then AllDefault(fmt[2..])
    else if fmt[0] == '{' then
      Close(fmt) == |fmt| || (Default(fmt[1..Close(fmt)]) && AllDefault(fmt[Close(fmt) + 1..]))
    else AllDefault(fmt[1..])
  }

  lemma DefaultDirective(spec: FmtSpec, conv: string)
    requires !spec.zero && spec.width == -1 && spec.prec == -1
    ensures Directive(spec, conv) == "%" + conv
  {
  }

  lemma ShowsAlike(pf: Printf, a: Arg, body: string)
    requires Libc(pf) && InRange(a) && Default(body)
    ensures Console(pf)(a, body) == Unbound(pf)(a, body)
  {
    var spec := SpecFor(body);
    DefaultDirective(NONE, "lld");
    DefaultDirective(NONE, "llu");
    DefaultDirective(NONE, "g");
    DefaultDirective(DEFAULT, "s");
    DefaultDirective(DEFAULT, "lld");
    DefaultDirective(DEFAULT, "llu");
    DefaultDirective(DEFAULT, "g");
    assert "%" + "lld" == "%lld" && "%" + "llu" == "%llu" && "%" + "g" == "%g" && "%" + "s" == "%s";
    assert a.Str? ==> a.s + Spaces(0) == a.s;
  }

  /** On such formats the console formatter and the unbound formatter render the same message. */
  lemma {:induction false} FormattersAgree(pf: Printf, fmt: string, args: seq<Arg>, next: nat)
    requires Libc(pf) && AllDefault(fmt) && AllInRange(args)
    ensures Render(fmt, args, next, Console(pf)) == Render(fmt, args, next, Unbound(pf))
    decreases |fmt|
  {
    if |fmt| == 0 {
    } else if |fmt| >= 2 && (fmt[0] == '{' || fmt[0] == '}') && fmt[1] == fmt[0] {
      FormattersAgree(pf, fmt[2..], args, next);
    } else if fmt[0] == '{' {
      var j := Close(fmt);
      if j < |fmt| {
        FormattersAgree(pf, fmt[j + 1..], args, After(args, next));
        if next < |args| { ShowsAlike(pf, args[next], fmt[1..j]); }
      }
    } else {
      FormattersAgree(pf, fmt[1..], args, next);
    }
  }
}
