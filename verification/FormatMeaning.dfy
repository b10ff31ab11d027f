/**
 What a format means, read off its text: literals, placeholders with their specifications as they are written, and the
 directives and values that printf gets for them. Nothing here is said in terms of the parser, the parsed
 specification or the rendering of Formatter; what follows proves that Formatter agrees.
 */
module FormatMeaning {
  import opened ArgPack
  import opened FormatSpec
  import opened Formatter

  // ---- numbers as they are written ----

  function Power10(k: nat): nat {
    if k == 0 then 1 else 10 * Power10(k - 1)
  }

  function Amount(digits: string): nat
    requires Digits(digits)
  {
    if |digits| == 0 then 0
    else (digits[0] as int - '0' as int) * Power10(|digits| - 1) + Amount(digits[1..])
  }

  /** Without its leading zeros; the last digit stays. */
  function Stripped(s: string): string {
    if |s| > 1 && s[0] == '0' then Stripped(s[1..]) else s
  }

  /** A stripped number exceeds the two digits of cap. */
  predicate Over(s: string, cap: string)
    requires |cap| == 2
  {
    |s| > 2 || (|s| == 2 && (s[0] > cap[0] || (s[0] == cap[0] && s[1] > cap[1])))
  }

  /** The number s as its two-digit limit lets it stand. */
  function Limited(s: string, cap: string): string
    requires |cap| == 2
  {
    if Over(Stripped(s), cap) then cap else Stripped(s)
  }

  // ---- fields ----

  function WidthText(x: Parts): string {
    if x.width == "" then "" else Limited(x.width, "96")
  }

  function PrecisionText(x: Parts): string {
    if x.prec == "" then "" else "." + Limited(x.prec[1..], "64")
  }

  /** The directive, piece by piece. */
  function Pieces(x: Parts, conv: string): string {
    "%" + (if x.zero then "0" else "") + WidthText(x) + PrecisionText(x) + conv
  }

  function Cut(s: string): string {
    if |s| <= 191 then s else s[..191]
  }

  predicate IsOneOf(kind: string, kinds: string) {
    |kind| == 1 && kind[0] in kinds
  }

  function Truth(b: bool): string {
    if b then "true" else "false"
  }

  function AtMost(a: nat, b: nat): nat {
    if a < b then a else b
  }

  /** At most as many characters as the precision says, if there is one. */
  function Shortened(s: string, prec: string): string
    requires prec != "" ==> Digits(prec[1..])
  {
    if prec == "" then s else s[..AtMost(AtMost(Amount(prec[1..]), 64), |s|)]
  }

  /** Followed by blanks up to the width, if there is one. */
  function Padded(s: string, width: string): string
    requires Digits(width)
  {
    var n := AtMost(Amount(width), 96);
    seq(if n > |s| then n else |s|, i requires 0 <= i => if i < |s| then s[i] else ' ')
  }

  /** An argument whose placeholder has no specification that applies to it. */
  function Fallback(pf: Printf, a: Arg): string {
    match a
    case Bool(b) => Truth(b)
    case I64(i) => Cut(pf("%lld", Num(i)))
    case U64(u) => Cut(pf("%llu", Num(u)))
    case F64(bits) => Cut(pf("%g", Dbl(bits)))
    case Str(s) => s
  }

  /** An argument under the specification x. */
  function FieldText(pf: Printf, a: Arg, x: Parts): string
    requires WellFormed(x)
  {
    match a
    case Bool(b) =>
      if x.prec == "" && IsOneOf(x.kind, "dxXo") then Cut(pf(Pieces(x, "ll" + x.kind), Num(if b then 1 else 0)))
      else if !x.zero && (x.kind == "" || x.kind == "s") then Cut(pf("%" + WidthText(x) + "s", Txt(Truth(b))))
      else Fallback(pf, a)
    case I64(i) =>
      if x.prec == "" && (x.kind == "" || x.kind == "d") then Cut(pf(Pieces(x, "lld"), Num(i)))
      else if x.prec == "" && IsOneOf(x.kind, "xXo") then
        Cut(pf(Pieces(x, "ll" + x.kind), Num(if i < 0 then i + 0x1_0000_0000_0000_0000 else i)))
      else Fallback(pf, a)
    case U64(u) =>
      if x.prec == "" && (x.kind == "" || x.kind == "d") then Cut(pf(Pieces(x, "llu"), Num(u)))
      else if x.prec == "" && IsOneOf(x.kind, "xXo") then Cut(pf(Pieces(x, "ll" + x.kind), Num(u)))
      else Fallback(pf, a)
    case F64(bits) =>
      if x.kind == "" then Cut(pf(Pieces(x, "g"), Dbl(bits)))
      else if IsOneOf(x.kind, "fFeEgG") then Cut(pf(Pieces(x, x.kind), Dbl(bits)))
      else Fallback(pf, a)
    case Str(s) =>
      if !x.zero && (x.kind == "" || x.kind == "s") then Padded(Shortened(s, x.prec), x.width)
      else Fallback(pf, a)
  }

  // ---- formats ----

  /** Text, a closing brace on its own, "{}", "{:x}", or a placeholder whose body is neither. */
  datatype Item = Verbatim(s: string) | CloseBrace | Bare | Specified(x: Parts) | Other(body: string) {
    predicate Placeholder() {
      Bare? || Specified? || Other?
    }
  }

  ghost predicate IsSpec(body: string) {
    exists x :: WellFormed(x) && body == ":" + Written(x)
  }

  ghost predicate ItemOk(it: Item) {
    match it
    case Specified(x) => WellFormed(x)
    case Other(body) => body != "" && body[0] != '{' && '}' !in body && !IsSpec(body)
    case _ => true
  }

  function ItemSource(it: Item): string {
    match it
    case Verbatim(s) => Escape(s)
    case CloseBrace => "}"
    case Bare => "{}"
    case Specified(x) => "{:" + Written(x) + "}"
    case Other(body) => "{" + body + "}"
  }

  function FormatText(items: seq<Item>): string {
    if |items| == 0 then "" else ItemSource(items[0]) + FormatText(items[1..])
  }

  /** A placeholder that is never closed, or nothing. */
  predicate OpenTail(tail: string) {
    tail == "" || (tail[0] == '{' && '}' !in tail && (|tail| == 1 || tail[1] != '{'))
  }

  /** A format: its items, each read as what it is, and its tail. */
  ghost predicate FormatOk(items: seq<Item>, tail: string) {
    if |items| == 0 then OpenTail(tail)
    else
      var rest := FormatText(items[1..]) + tail;
      && ItemOk(items[0]) && FormatOk(items[1..], tail)
      && (items[0].CloseBrace? ==> rest == "" || rest[0] != '}')
  }

  /** How a placeholder shows an argument. */
  type Telling = (Arg, Item) -> string

  ghost function ConsoleTelling(pf: Printf): Telling {
    (a: Arg, it: Item) =>
      match it
      case Bare => FieldText(pf, a, Parts(false, "", "", ""))
      case Specified(x) => if WellFormed(x) then FieldText(pf, a, x) else ""
      case _ => Fallback(pf, a)
  }

  ghost function UnboundTelling(pf: Printf): Telling {
    (a: Arg, it: Item) =>
      match a
      case Bool(b) => pf("%s", Txt(Truth(b)))
      case I64(i) => pf("%ld", Num(i))
      case U64(u) => pf("%lu", Num(u))
      case F64(bits) => pf("%g", Dbl(bits))
      case Str(s) => s
  }

  /** The message: verbatim text as it is, each placeholder the next argument, "{?}" once they run out. */
  ghost function Told(items: seq<Item>, args: seq<Arg>, tell: Telling): string {
    if |items| == 0 then ""
    else if items[0].Verbatim? then items[0].s + Told(items[1..], args, tell)
    else if items[0].CloseBrace? then "}" + Told(items[1..], args, tell)
    else if |args| == 0 then "{?}" + Told(items[1..], args, tell)
    else tell(args[0], items[0]) + Told(items[1..], args[1..], tell)
  }

  // ---- numbers agree ----

  lemma {:induction false} AmountAppend(s: string, c: char)
    requires Digits(s) && IsDigit(c)
    ensures Digits(s + [c]) && Amount(s + [c]) == 10 * Amount(s) + (c as int - '0' as int)
  {
    assert forall k | 0 <= k < |s| :: (s + [c])[k] == s[k];
    if |s| == 0 {
      assert s + [c] == [c] && Amount([c][1..]) == 0;
    } else {
      assert (s + [c])[1..] == s[1..] + [c];
      AmountAppend(s[1..], c);
      Shift(s[0] as int - '0' as int, Power10(|s| - 1));
    }
  }

  lemma Shift(d: int, p: nat)
    ensures d * (10 * p) == 10 * (d * p)
  {
  }

  lemma {:induction false} AmountIsNumber(s: string)
    requires Digits(s)
    ensures Amount(s) == Number(s)
  {
    if |s| > 0 {
      var front := s[..|s| - 1];
      AmountIsNumber(front);
      AmountAppend(front, s[|s| - 1]);
      assert s == front + [s[|s| - 1]];
    }
  }

  lemma StripOne(s: string)
    requires Digits(s) && |s| > 1 && s[0] == '0'
    ensures Digits(s[1..]) && Amount(s) == Amount(s[1..])
  {
  }

  lemma {:induction false} StrippedAmount(s: string)
    requires Digits(s) && s != ""
    ensures var t := Stripped(s); Digits(t) && t != "" && (|t| == 1 || t[0] != '0') && Amount(t) == Amount(s)
    decreases |s|
  {
    if |s| > 1 && s[0] == '0' {
      StripOne(s);
      StrippedAmount(s[1..]);
    }
  }

  lemma {:induction false} AmountAtLeast(s: string)
    requires Digits(s) && s != "" && s[0] != '0'
    ensures Amount(s) >= Power10(|s| - 1)
  {
    assert s[0] as int - '0' as int >= 1;
    AtLeastOnce(s[0] as int - '0' as int, Power10(|s| - 1));
  }

  lemma AtLeastOnce(d: nat, p: nat)
    requires d >= 1
    ensures d * p >= p
  {
    var e: nat := d - 1;
    assert e * p >= 0 && d * p == e * p + p;
  }

  lemma {:induction false} Power10Grows(k: nat)
    requires k >= 2
    ensures Power10(k) >= 100
  {
    if k > 2 { Power10Grows(k - 1); }
  }

  /** The textual comparison is the numeric one. */
  lemma OverMeans(t: string, cap: string)
    requires Digits(t) && t != "" && (|t| == 1 || t[0] != '0') && Digits(cap) && |cap| == 2 && cap[0] != '0'
    ensures Over(t, cap) <==> Amount(t) > Amount(cap)
  {
    TwoDigits(cap);
    if |t| > 2 {
      AmountAtLeast(t);
      Power10Grows(|t| - 1);
    } else if |t| == 2 {
      TwoDigits(t);
    } else {
      assert t == "" + [t[0]];
      AmountAppend("", t[0]);
    }
  }

  lemma TwoDigits(t: string)
    requires Digits(t) && |t| == 2
    ensures Amount(t) == 10 * (t[0] as int - '0' as int) + (t[1] as int - '0' as int) < 100
  {
    assert t == [t[0]] + [t[1]] && [t[0]] == "" + [t[0]];
    AmountAppend("", t[0]);
    AmountAppend([t[0]], t[1]);
  }

  lemma DecimalStep(m: nat, d: nat)
    requires d < 10
    ensures Decimal(10 * m + d) == (if m == 0 then "" else Decimal(m)) + [('0' as int + d) as char]
  {
    var n := 10 * m + d;
    assert n / 10 == m && n % 10 == d;
  }

  lemma Positive(t: string)
    requires Digits(t) && t != "" && t[0] != '0'
    ensures Amount(t) >= 1
  {
    AmountAtLeast(t);
    PowerPositive(|t| - 1);
  }

  /** Printing a number gives its digits back. */
  lemma {:induction false} DecimalOfAmount(t: string)
    requires Digits(t) && t != "" && (|t| == 1 || t[0] != '0')
    ensures Decimal(Amount(t)) == t
  {
    var n := |t| - 1;
    var front, c := t[..n], t[n];
    assert t == front + [c];
    AmountAppend(front, c);
    DecimalStep(Amount(front), c as int - '0' as int);
    if n > 0 {
      DecimalOfAmount(front);
      Positive(front);
    } else {
      assert front == "" && t == [c];
    }
  }

  lemma {:induction false} PowerPositive(k: nat)
    ensures Power10(k) >= 1
  {
    if k > 0 { PowerPositive(k - 1); }
  }

  /** A clamped number is printed as its text says. */
  lemma LimitedIs(s: string, cap: string, max: nat)
    requires Digits(s) && s != "" && Digits(cap) && |cap| == 2 && cap[0] != '0' && Amount(cap) == max
    ensures Decimal(Clamp(Number(s), max)) == Limited(s, cap)
  {
    AmountIsNumber(s);
    StrippedAmount(s);
    OverMeans(Stripped(s), cap);
    DecimalOfAmount(Stripped(s));
    DecimalOfAmount(cap);
  }

  // ---- specifications agree ----

  lemma LimitsAre()
    ensures Digits("96") && Amount("96") == 96 && Digits("64") && Amount("64") == 64
  {
    TwoDigits("96");
    TwoDigits("64");
  }

  lemma PiecesAre(x: Parts, conv: string)
    requires WellFormed(x)
    ensures Directive(Meaning(x), conv) == Pieces(x, conv)
  {
    LimitsAre();
    if x.width != "" { LimitedIs(x.width, "96", 96); }
    if x.prec != "" { LimitedIs(x.prec[1..], "64", 64); }
  }

  /** The directive of a specification whose precision and zero are set aside. */
  lemma TextPiecesAre(x: Parts)
    requires WellFormed(x) && !x.zero
    ensures Directive(Meaning(x).(prec := -1), "s") == "%" + WidthText(x) + "s"
  {
    LimitsAre();
    if x.width != "" { LimitedIs(x.width, "96", 96); }
    assert "%" + "" == "%" && "%" + WidthText(x) + "" == "%" + WidthText(x);
  }

  lemma NumericIsCut(pf: Printf, spec: FmtSpec, conv: string, v: Value)
    ensures Numeric(pf, spec, conv, v) == Cut(pf(Directive(spec, conv), v))
  {
  }

  lemma FieldIs(pf: Printf, x: Parts, conv: string, v: Value)
    requires WellFormed(x)
    ensures Numeric(pf, Meaning(x), conv, v) == Cut(pf(Pieces(x, conv), v))
  {
    PiecesAre(x, conv);
    NumericIsCut(pf, Meaning(x), conv, v);
  }

  lemma KindIs(x: Parts)
    requires WellFormed(x)
    ensures x.kind == "" <==> Meaning(x).kind == '\0'
    ensures x.kind != "" ==> x.kind == [Meaning(x).kind]
    ensures IsOneOf(x.kind, "dxXo") <==> Integral(Meaning(x).kind)
    ensures IsOneOf(x.kind, "xXo") <==> Radix(Meaning(x).kind)
    ensures IsOneOf(x.kind, "fFeEgG") <==> Real(Meaning(x).kind)
    ensures x.kind == "s" <==> Meaning(x).kind == 's'
    ensures x.kind == "d" <==> Meaning(x).kind == 'd'
  {
    if x.kind != "" { assert x.kind == [x.kind[0]]; }
  }

  lemma FallbackIs(pf: Printf, a: Arg)
    ensures Shown(pf, a, NONE) == Fallback(pf, a)
  {
    assert "%" + "" + "" + "" + "lld" == "%lld" && "%" + "" + "" + "" + "llu" == "%llu" && "%" + "" + "" + "" + "g" == "%g";
  }

  lemma StringFieldAgrees(s: string, x: Parts)
    requires WellFormed(x)
    ensures StringField(s, Meaning(x)) == Padded(Shortened(s, x.prec), x.width)
  {
    if x.width != "" { AmountIsNumber(x.width); }
    if x.prec != "" { AmountIsNumber(x.prec[1..]); }
  }

  lemma WrapIs(i: int)
    requires -(TWO64 / 2) <= i < TWO64 / 2
    ensures Wrap(i) == if i < 0 then i + 0x1_0000_0000_0000_0000 else i
  {
  }

  lemma BoolAgrees(pf: Printf, b: bool, x: Parts)
    requires WellFormed(x)
    ensures Shown(pf, Bool(b), Meaning(x)) == FieldText(pf, Bool(b), x)
  {
    KindIs(x);
    var spec := Meaning(x);
    if spec.prec < 0 && Integral(spec.kind) {
      FieldIs(pf, x, "ll" + x.kind, Num(if b then 1 else 0));
    } else if Textual(spec) {
      TextPiecesAre(x);
      NumericIsCut(pf, spec.(prec := -1), "s", Txt(BoolName(b)));
    }
  }

  lemma IntegerAgrees(pf: Printf, a: Arg, x: Parts)
    requires WellFormed(x) && InRange(a) && (a.I64? || a.U64?)
    ensures Shown(pf, a, Meaning(x)) == FieldText(pf, a, x)
  {
    KindIs(x);
    FallbackIs(pf, a);
    match a
    case I64(i) =>
      WrapIs(i);
      FieldIs(pf, x, "lld", Num(i));
      FieldIs(pf, x, "ll" + x.kind, Num(Wrap(i)));
    case U64(u) =>
      FieldIs(pf, x, "llu", Num(u));
      FieldIs(pf, x, "ll" + x.kind, Num(u));
  }

  lemma DoubleAgrees(pf: Printf, bits: nat, x: Parts)
    requires WellFormed(x)
    ensures Shown(pf, F64(bits), Meaning(x)) == FieldText(pf, F64(bits), x)
  {
    KindIs(x);
    FallbackIs(pf, F64(bits));
    FieldIs(pf, x, "g", Dbl(bits));
    FieldIs(pf, x, x.kind, Dbl(bits));
  }

  /** A parsed specification shows an argument as its text says. */
  lemma SpecifiedAgrees(pf: Printf, a: Arg, x: Parts)
    requires WellFormed(x) && InRange(a)
    ensures Shown(pf, a, Meaning(x)) == FieldText(pf, a, x)
  {
    match a
    case Bool(b) => BoolAgrees(pf, b, x);
    case I64(_) => IntegerAgrees(pf, a, x);
    case U64(_) => IntegerAgrees(pf, a, x);
    case F64(bits) => DoubleAgrees(pf, bits, x);
    case Str(s) =>
      KindIs(x);
      StringFieldAgrees(s, x);
  }

  // ---- formats agree ----

  function Body(it: Item): string
    requires it.Placeholder()
  {
    match it
    case Bare => ""
    case Specified(x) => ":" + Written(x)
    case Other(body) => body
  }

  lemma WrittenIsProper(x: Parts)
    requires WellFormed(x)
    ensures '}' !in Written(x)
  {
    assert forall k | 0 <= k < |x.width| :: IsDigit(x.width[k]);
    assert x.prec != "" ==> forall k | 1 <= k < |x.prec| :: x.prec[k] == x.prec[1..][k - 1];
  }

  lemma BodyIsProper(it: Item)
    requires ItemOk(it) && it.Placeholder()
    ensures Proper(Placeholder(Body(it))) && ItemSource(it) == "{" + Body(it) + "}"
  {
    if it.Specified? {
      WrittenIsProper(it.x);
      assert "{:" + Written(it.x) + "}" == "{" + (":" + Written(it.x)) + "}";
    }
    if it.Bare? { assert "{" + "" + "}" == "{}"; }
  }

  lemma WrittenIsSpec(body: string, x: Parts)
    requires body != "" && body[0] == ':' && WellFormed(x) && Written(x) == body[1..]
    ensures IsSpec(body)
  {
    assert body == ":" + Written(x);
  }

  lemma ParsedIsSpec(body: string)
    requires body != "" && body[0] == ':' && SpecOf(body[1..]).ok
    ensures IsSpec(body)
  {
    WrittenApart(body[1..]);
    WrittenIsSpec(body, TakenApart(body[1..]));
  }

  lemma NotOkFallsBack(pf: Printf, a: Arg, spec: FmtSpec)
    requires !spec.ok
    ensures Shown(pf, a, spec) == Fallback(pf, a)
  {
    FallbackIs(pf, a);
  }

  lemma BareAgrees(pf: Printf, a: Arg)
    requires InRange(a)
    ensures Shown(pf, a, DEFAULT) == FieldText(pf, a, Parts(false, "", "", ""))
  {
    var x := Parts(false, "", "", "");
    assert WellFormed(x) && Meaning(x) == DEFAULT;
    SpecifiedAgrees(pf, a, x);
  }

  lemma SpecifiedIsParsed(x: Parts)
    requires WellFormed(x)
    ensures SpecFor(":" + Written(x)) == Meaning(x)
  {
    assert (":" + Written(x))[1..] == Written(x);
    SpecOfGrammar(Written(x));
  }

  /** Each placeholder shows its argument as its text says. */
  lemma PlaceholderAgrees(pf: Printf, a: Arg, it: Item)
    requires ItemOk(it) && it.Placeholder() && InRange(a)
    ensures Console(pf)(a, Body(it)) == ConsoleTelling(pf)(a, it)
  {
    match it
    case Bare => BareAgrees(pf, a);
    case Specified(x) =>
      SpecifiedIsParsed(x);
      SpecifiedAgrees(pf, a, x);
    case Other(body) =>
      if SpecFor(body).ok { ParsedIsSpec(body); }
      NotOkFallsBack(pf, a, SpecFor(body));
  }

  lemma OpenTailRendersNothing(tail: string, args: seq<Arg>, next: nat, show: Shower)
    requires OpenTail(tail)
    ensures Render(tail, args, next, show) == ""
  {
    if tail != "" { NeverClosed(tail); }
  }

  lemma {:induction false} NeverClosed(s: string)
    requires '}' !in s
    ensures Close(s) == |s|
  {
    if |s| > 0 {
      assert s[0] in s;
      NeverClosed(s[1..]);
    }
  }

  /** A closing brace on its own stands for itself. */
  lemma LoneBrace(rest: string, args: seq<Arg>, next: nat, show: Shower)
    requires rest == "" || rest[0] != '}'
    ensures Render("}" + rest, args, next, show) == "}" + Render(rest, args, next, show)
  {
    assert ("}" + rest)[1..] == rest;
  }

  lemma PlaceholderThenRest(it: Item, rest: string, args: seq<Arg>, next: nat, show: Shower)
    requires ItemOk(it) && it.Placeholder()
    ensures Render(ItemSource(it) + rest, args, next, show)
         == Hole(args, next, Body(it), show) + Render(rest, args, After(args, next), show)
  {
    BodyIsProper(it);
    HoleThenRest(Body(it), rest, args, next, show);
  }

  /** The formatter shows every argument from next on under every placeholder as told. */
  ghost predicate ShowsAsTold(items: seq<Item>, args: seq<Arg>, show: Shower, tell: Telling) {
    forall a, it | a in args && it in items && ItemOk(it) && it.Placeholder() :: show(a, Body(it)) == tell(a, it)
  }

  lemma TextTold(it: Item, rest: string, args: seq<Arg>, next: nat, show: Shower)
    requires (it.Verbatim? || it.CloseBrace?) && (it.CloseBrace? ==> rest == "" || rest[0] != '}')
    ensures Render(ItemSource(it) + rest, args, next, show)
         == (if it.Verbatim? then it.s else "}") + Render(rest, args, next, show)
  {
    if it.Verbatim? { EscapedThenRest(it.s, rest, args, next, show); } else { LoneBrace(rest, args, next, show); }
  }

  lemma PlaceholderTold(items: seq<Item>, args: seq<Arg>, next: nat, show: Shower, tell: Telling)
    requires |items| > 0 && ItemOk(items[0]) && items[0].Placeholder()
    requires next <= |args| && ShowsAsTold(items, args, show, tell)
    ensures After(args, next) <= |args|
    ensures Told(items, args[next..], tell)
         == Hole(args, next, Body(items[0]), show) + Told(items[1..], args[After(args, next)..], tell)
  {
    if next < |args| {
      assert args[next..][1..] == args[next + 1..] && args[next..][0] == args[next];
      assert show(args[next], Body(items[0])) == tell(args[next], items[0]);
    } else {
      assert args[next..] == [];
    }
  }

  /** What a formatter renders is what the text of the format tells, if it shows each placeholder as told. */
  lemma {:induction false} RendersAsTold(items: seq<Item>, tail: string, args: seq<Arg>, next: nat, show: Shower, tell: Telling)
    requires FormatOk(items, tail) && next <= |args| && ShowsAsTold(items, args, show, tell)
    ensures Render(FormatText(items) + tail, args, next, show) == Told(items, args[next..], tell)
  {
    if |items| == 0 {
      assert FormatText(items) + tail == tail;
      OpenTailRendersNothing(tail, args, next, show);
    } else {
      var it, more, rest := items[0], items[1..], FormatText(items[1..]) + tail;
      assert FormatText(items) + tail == ItemSource(it) + rest;
      assert ShowsAsTold(more, args, show, tell);
      if it.Placeholder() {
        PlaceholderThenRest(it, rest, args, next, show);
        PlaceholderTold(items, args, next, show, tell);
        RendersAsTold(more, tail, args, After(args, next), show, tell);
      } else {
        TextTold(it, rest, args, next, show);
        RendersAsTold(more, tail, args, next, show, tell);
      }
    }
  }

  /**
   End to end: the console formatter renders a format as its text says: text with every brace doubled, closing braces
   on their own, placeholders "{}", "{:spec}" and others, and possibly one that is never closed.
   */
  lemma ConsoleRendersAsTold(pf: Printf, items: seq<Item>, tail: string, args: seq<Arg>)
    requires FormatOk(items, tail) && AllInRange(args)
    ensures Render(FormatText(items) + tail, args, 0, Console(pf)) == Told(items, args, ConsoleTelling(pf))
  {
    forall a, it | a in args && it in items && ItemOk(it) && it.Placeholder()
      ensures Console(pf)(a, Body(it)) == ConsoleTelling(pf)(a, it)
    {
      PlaceholderAgrees(pf, a, it);
    }
    RendersAsTold(items, tail, args, 0, Console(pf), ConsoleTelling(pf));
    assert args[0..] == args;
  }

  lemma PlainIsTold(pf: Printf, a: Arg, it: Item)
    ensures Unbound(pf)(a, if it.Placeholder() then Body(it) else "") == Plain(pf, a) == UnboundTelling(pf)(a, it)
  {
    assert a.Bool? ==> BoolName(a.b) == Truth(a.b);
  }

  /** The unbound formatter ignores what is between the braces. */
  lemma UnboundRendersAsTold(pf: Printf, items: seq<Item>, tail: string, args: seq<Arg>)
    requires FormatOk(items, tail)
    ensures Render(FormatText(items) + tail, args, 0, Unbound(pf)) == Told(items, args, UnboundTelling(pf))
  {
    forall a, it | a in args && it in items && ItemOk(it) && it.Placeholder()
      ensures Unbound(pf)(a, Body(it)) == UnboundTelling(pf)(a, it)
    {
      PlainIsTold(pf, a, it);
    }
    RendersAsTold(items, tail, args, 0, Unbound(pf), UnboundTelling(pf));
    assert args[0..] == args;
  }

  // ---- every text is a format ----

  function BodyItem(body: string): Item {
    if body == "" then Bare
    else if body[0] == ':' && WellFormed(TakenApart(body[1..])) then Specified(TakenApart(body[1..]))
    else Other(body)
  }

  lemma SpecIsTakenApart(body: string)
    requires IsSpec(body)
    ensures body != "" && body[0] == ':' && WellFormed(TakenApart(body[1..]))
  {
    var x :| WellFormed(x) && body == ":" + Written(x);
    assert body[1..] == Written(x);
    ApartIsUnique(x);
  }

  lemma SpecifiedSource(body: string, x: Parts)
    requires body != "" && body[0] == ':' && Written(x) == body[1..]
    ensures ItemSource(Specified(x)) == "{" + body + "}"
  {
    assert body == ":" + Written(x);
    assert "{:" + Written(x) + "}" == "{" + (":" + Written(x)) + "}";
  }

  lemma BodyItemOk(body: string)
    requires '}' !in body && (body != "" ==> body[0] != '{')
    ensures ItemOk(BodyItem(body)) && ItemSource(BodyItem(body)) == "{" + body + "}"
  {
    match BodyItem(body)
    case Bare => assert "{" + "" + "}" == "{}";
    case Specified(x) =>
      WrittenApart(body[1..]);
      SpecifiedSource(body, x);
    case Other(_) =>
      if IsSpec(body) {
        SpecIsTakenApart(body);
        assert false;
      }
    case _ =>
  }

  lemma Prepend(it: Item, items: seq<Item>, tail: string)
    requires ItemOk(it) && FormatOk(items, tail)
    requires it.CloseBrace? ==> var rest := FormatText(items) + tail; rest == "" || rest[0] != '}'
    ensures FormatOk([it] + items, tail) && FormatText([it] + items) + tail == ItemSource(it) + (FormatText(items) + tail)
  {
    assert ([it] + items)[1..] == items;
  }

  predicate NeverCloses(fmt: string) {
    |fmt| > 0 && fmt[0] == '{' && Close(fmt) == |fmt| && (|fmt| == 1 || fmt[1] != '{')
  }

  lemma NeverClosesIsTail(fmt: string)
    requires fmt == "" || NeverCloses(fmt)
    ensures FormatOk([], fmt) && FormatText([]) + fmt == fmt
  {
    assert fmt[..|fmt|] == fmt;
    assert "" + fmt == fmt;
  }

  /** Every text is a format, so the meaning above is that of every format there is. */
  lemma {:induction false} EveryTextIsAFormat(fmt: string) returns (items: seq<Item>, tail: string)
    ensures FormatOk(items, tail) && FormatText(items) + tail == fmt
    decreases |fmt|
  {
    if fmt == "" || NeverCloses(fmt) {
      items, tail := [], fmt;
      NeverClosesIsTail(fmt);
    } else {
      var it, n := FirstItem(fmt);
      items, tail := EveryTextIsAFormat(fmt[n..]);
      Prepend(it, items, tail);
      items := [it] + items;
      assert fmt[..n] + fmt[n..] == fmt;
    }
  }

  lemma FirstItem(fmt: string) returns (it: Item, n: nat)
    requires fmt != "" && !NeverCloses(fmt)
    ensures 0 < n <= |fmt| && ItemOk(it) && ItemSource(it) == fmt[..n]
    ensures it.CloseBrace? ==> n == |fmt| || fmt[n] != '}'
  {
    var c := fmt[0];
    if |fmt| >= 2 && (c == '{' || c == '}') && fmt[1] == c {
      it, n := Verbatim([c]), 2;
      assert [c][1..] == "" && Escape([c]) == [c, c] == fmt[..2];
    } else if c == '{' {
      var j := Close(fmt);
      var body := fmt[1..j];
      assert forall k | 0 <= k < |body| :: body[k] == fmt[..j][k + 1];
      it, n := BodyItem(body), j + 1;
      BodyItemOk(body);
      assert "{" + body + "}" == fmt[..n];
    } else if c == '}' {
      it, n := CloseBrace, 1;
    } else {
      it, n := Verbatim([c]), 1;
      assert [c][1..] == "" && Escape([c]) == [c];
    }
  }
}
