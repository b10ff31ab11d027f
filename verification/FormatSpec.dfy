/**
 The placeholder specifications of the console formatter (src/telemetry_console_binding.cpp): ParseSpec against the
 grammar "[0][width][.prec][type]".
 */
module FormatSpec {

  const MAX_WIDTH: nat := 96
  const MAX_PREC: nat := 64
  const TYPES: string := "fFeEgGdxXos"

  /** width, prec: -1 when unset. kind: '\0' when unset. */
  datatype FmtSpec = FmtSpec(ok: bool, zero: bool, width: int, prec: int, kind: char)

  const NONE := FmtSpec(false, false, -1, -1, '\0')

  predicate IsDigit(c: char) {
    '0' <= c <= '9'
  }

  predicate Digits(s: string) {
    forall k | 0 <= k < |s| :: IsDigit(s[k])
  }

  function Number(s: string): nat
    requires Digits(s)
  {
    if |s| == 0 then 0 else 10 * Number(s[..|s| - 1]) + (s[|s| - 1] as int - '0' as int)
  }

  function Clamp(n: nat, max: nat): nat {
    if n > max then max else n
  }

  // ---- the grammar ----

  /** The pieces of a specification as they are written. */
  datatype Parts = Parts(zero: bool, width: string, prec: string, kind: string)

  function Written(x: Parts): string {
    (if x.zero then "0" else "") + (x.width + (x.prec + x.kind))
  }

  predicate WellFormed(x: Parts) {
    && Digits(x.width) && (!x.zero && x.width != "" ==> x.width[0] != '0')
    && (x.prec == "" || (|x.prec| >= 2 && x.prec[0] == '.' && Digits(x.prec[1..])))
    && (x.kind == "" || (|x.kind| == 1 && x.kind[0] in TYPES))
  }

  function Meaning(x: Parts): FmtSpec
    requires WellFormed(x)
  {
    FmtSpec(true, x.zero,
            Field(x.width, MAX_WIDTH),
            if x.prec == "" then -1 else Field(x.prec[1..], MAX_PREC),
            if x.kind == "" then '\0' else x.kind[0])
  }

  function Field(digits: string, max: nat): int
    requires Digits(digits)
  {
    if digits == "" then -1 else Clamp(Number(digits), max)
  }

  // ---- the only way to take a text apart ----

  /** How many digits s starts with. */
  function Lead(s: string): (n: nat)
    ensures n <= |s| && Digits(s[..n]) && (n < |s| ==> !IsDigit(s[n]))
  {
    if |s| == 0 || !IsDigit(s[0]) then 0 else
      assert forall k | 1 <= k < 1 + Lead(s[1..]) :: s[k] == s[1..][k - 1];
      1 + Lead(s[1..])
  }

  function Unzeroed(s: string): string {
    if |s| > 0 && s[0] == '0' then s[1..] else s
  }

  function Unsized(s: string): string {
    s[Lead(s)..]
  }

  function Precision(s: string): (p: string)
    ensures p <= s
  {
    if |s| > 0 && s[0] == '.' then s[..1 + Lead(s[1..])] else ""
  }

  function TakenApart(s: string): Parts {
    var a := Unzeroed(s);
    var b := Unsized(a);
    Parts(|s| > 0 && s[0] == '0', a[..Lead(a)], Precision(b), b[|Precision(b)|..])
  }

  lemma {:induction false} LeadOf(w: string, t: string)
    requires Digits(w) && (t == "" || !IsDigit(t[0]))
    ensures Lead(w + t) == |w|
  {
    if w == "" {
      assert w + t == t;
    } else {
      assert (w + t)[1..] == w[1..] + t;
      LeadOf(w[1..], t);
    }
  }

  lemma Rejoin(s: string, n: nat)
    requires n <= |s|
    ensures s[..n] + s[n..] == s
  {
  }

  lemma WrittenApart(s: string)
    ensures Written(TakenApart(s)) == s
  {
    var a := Unzeroed(s);
    var b := Unsized(a);
    Rejoin(b, |Precision(b)|);
    Rejoin(a, Lead(a));
    if a != s { Rejoin(s, 1); }
  }

  lemma ZeroApart(zero: bool, a: string)
    requires !zero && a != "" ==> a[0] != '0'
    ensures var s := (if zero then "0" else "") + a;
            Unzeroed(s) == a && (|s| > 0 && s[0] == '0') == zero
  {
    var s := (if zero then "0" else "") + a;
    if zero { assert s[1..] == a; } else { assert s == a; }
  }

  lemma WidthApart(w: string, b: string)
    requires Digits(w) && (b == "" || !IsDigit(b[0]))
    ensures Unsized(w + b) == b && (w + b)[..Lead(w + b)] == w
  {
    LeadOf(w, b);
  }

  lemma PrecisionApart(p: string, k: string)
    requires p == "" || (|p| >= 2 && p[0] == '.' && Digits(p[1..]))
    requires k == "" || (!IsDigit(k[0]) && k[0] != '.')
    ensures Precision(p + k) == p && (p + k)[|p|..] == k
  {
    if p == "" {
      assert p + k == k;
    } else {
      assert (p + k)[1..] == p[1..] + k;
      LeadOf(p[1..], k);
    }
  }

  /** A specification can be read in one way only. */
  lemma ApartIsUnique(x: Parts)
    requires WellFormed(x)
    ensures TakenApart(Written(x)) == x
  {
    var b := x.prec + x.kind;
    PrecisionApart(x.prec, x.kind);
    assert b == "" || b[0] == '.' || b[0] in TYPES;
    WidthApart(x.width, b);
    ZeroApart(x.zero, x.width + b);
  }

  /** The specification that the text between ':' and '}' denotes; only ok matters when it is false. */
  function SpecOf(s: string): (r: FmtSpec) {
    if WellFormed(TakenApart(s)) then Meaning(TakenApart(s)) else NONE
  }

  /** SpecOf accepts exactly the texts of the grammar, and gives each its meaning. */
  lemma SpecOfGrammar(s: string)
    ensures SpecOf(s).ok <==> exists x :: WellFormed(x) && Written(x) == s
    ensures forall x | WellFormed(x) && Written(x) == s :: SpecOf(s) == Meaning(x)
  {
    WrittenApart(s);
    forall x | WellFormed(x) && Written(x) == s ensures SpecOf(s) == Meaning(x) { ApartIsUnique(x); }
  }

  // ---- the parser ----

  lemma ClampNext(n: nat, d: nat, max: nat)
    requires d < 10
    ensures Clamp(Clamp(n, max) * 10 + d, max) == Clamp(10 * n + d, max)
  {
  }

  lemma NumberNext(s: string, start: nat, i: nat)
    requires start <= i < |s| && Digits(s[start..i]) && IsDigit(s[i])
    ensures Digits(s[start..i + 1])
    ensures Number(s[start..i + 1]) == 10 * Number(s[start..i]) + (s[i] as int - '0' as int)
  {
    var sofar := s[start..i];
    assert s[start..i + 1] == sofar + [s[i]] && (sofar + [s[i]])[..|sofar|] == sofar;
  }

  lemma LeadIs(s: string, start: nat, i: nat)
    requires start <= i <= |s| && Digits(s[start..i]) && (i < |s| ==> !IsDigit(s[i]))
    ensures Lead(s[start..]) == i - start && s[start..][..i - start] == s[start..i]
  {
    LeadOf(s[start..i], s[i..]);
    assert s[start..] == s[start..i] + s[i..];
  }

  /** The digit loops of ParseSpec: the value clamps on every digit, which is clamping it once. */
  method ReadNumber(s: string, start: nat, max: nat) returns (n: nat, i: nat)
    requires start <= |s|
    ensures i == start + Lead(s[start..]) && n == Clamp(Number(s[start..][..i - start]), max)
  {
    n, i := 0, start;
    while i < |s| && IsDigit(s[i])
      invariant start <= i <= |s| && Digits(s[start..i]) && n == Clamp(Number(s[start..i]), max)
    {
      NumberNext(s, start, i);
      ClampNext(Number(s[start..i]), s[i] as int - '0' as int, max);
      n := n * 10 + (s[i] as int - '0' as int);
      if n > max { n := max; }
      i := i + 1;
    }
    LeadIs(s, start, i);
  }

  /** The width part of ParseSpec. */
  method ParseWidth(s: string, start: nat) returns (width: int, i: nat)
    requires start <= |s|
    ensures i == start + Lead(s[start..]) && width == Field(s[start..][..i - start], MAX_WIDTH)
  {
    width, i := -1, start;
    if i < |s| && IsDigit(s[i]) {
      width, i := ReadNumber(s, start, MAX_WIDTH);
    }
  }

  /** The precision part of ParseSpec: a dot without a digit is outside the subset. */
  method ParsePrecision(s: string, start: nat) returns (bad: bool, prec: int, i: nat)
    requires start <= |s|
    ensures bad <==> |Precision(s[start..])| == 1
    ensures !bad ==> i == start + |Precision(s[start..])|
    ensures !bad ==> prec == if i == start then -1 else Field(Precision(s[start..])[1..], MAX_PREC)
  {
    bad, prec, i := false, -1, start;
    if i < |s| && s[i] == '.' {
      i := i + 1;
      ghost var b := s[start..];
      assert b[1..] == s[i..];
      if i >= |s| || !IsDigit(s[i]) { return true, prec, i; }
      prec, i := ReadNumber(s, i, MAX_PREC);
      assert Precision(b)[1..] == b[1..][..Lead(b[1..])];
    }
  }

  /** The type part of ParseSpec, and whether it reached the end. */
  method ParseKind(s: string, start: nat) returns (kind: char, ok: bool)
    requires start <= |s|
    ensures ok <==> s[start..] == "" || (|s[start..]| == 1 && s[start] in TYPES)
    ensures ok ==> kind == if s[start..] == "" then '\0' else s[start]
  {
    kind, ok := '\0', false;
    var i := start;
    if i < |s| {
      if s[i] !in TYPES { return; }
      kind := s[i];
      i := i + 1;
    }
    ok := i == |s|;
  }

  /** The pieces x of s, by where the parser finds them. */
  ghost predicate InPlace(s: string, x: Parts) {
    var z := if x.zero then 1 else 0;
    && x.zero == (|s| > 0 && s[0] == '0')
    && z + |x.width| + |x.prec| <= |s|
    && x.width == s[z..][..Lead(s[z..])]
    && x.prec == Precision(s[z + |x.width|..])
    && x.kind == s[z + |x.width| + |x.prec|..]
  }

  lemma PartsInPlace(s: string)
    ensures InPlace(s, TakenApart(s))
  {
  }

  lemma PrecisionShape(b: string)
    ensures var p := Precision(b); p == "" || (p[0] == '.' && Digits(p[1..]))
  {
    if |b| > 0 && b[0] == '.' {
      assert Precision(b)[1..] == b[1..][..Lead(b[1..])];
    }
  }

  /** Pieces found in place are well-formed if a digit follows the dot and at most a type character is left. */
  lemma InPlaceForm(s: string, x: Parts)
    requires InPlace(s, x)
    ensures Digits(x.width) && (x.prec == "" || Digits(x.prec[1..]))
    ensures WellFormed(x) <==> |x.prec| != 1 && (x.kind == "" || (|x.kind| == 1 && x.kind[0] in TYPES))
  {
    PrecisionShape(s[(if x.zero then 1 else 0) + |x.width|..]);
  }

  /** ParseSpec, for the pieces x of s. */
  method ParseParts(s: string, ghost x: Parts) returns (spec: FmtSpec)
    requires InPlace(s, x)
    ensures spec.ok == WellFormed(x) && (spec.ok ==> spec == Meaning(x))
  {
    InPlaceForm(s, x);
    ghost var z := if x.zero then 1 else 0;
    spec := NONE;
    var i := 0;
    if i < |s| && s[i] == '0' {
      spec := spec.(zero := true);
      i := i + 1;
    }
    var width, afterWidth := ParseWidth(s, i);
    spec := spec.(width := width);
    i := afterWidth;
    assert i == z + |x.width|;
    var bad, prec, afterPrec := ParsePrecision(s, i);
    if bad { return; }
    spec := spec.(prec := prec);
    i := afterPrec;
    assert i == z + |x.width| + |x.prec|;
    var kind, ok := ParseKind(s, i);
    spec := spec.(kind := kind, ok := ok);
  }

  method ParseSpec(s: string) returns (spec: FmtSpec)
    ensures spec.ok == SpecOf(s).ok && (spec.ok ==> spec == SpecOf(s))
  {
    PartsInPlace(s);
    spec := ParseParts(s, TakenApart(s));
  }
}
