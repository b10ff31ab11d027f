/**
 The formatters as they write: in place, into a buffer of fixed size, NUL-terminated. Each method is proved to leave
 the part of the unbounded rendering that fits.
 */
module FormatBuffers {
  import opened ArgPack
  import opened FormatSpec
  import opened Formatter
  import M = FormatMeaning

  /** The part of s that fits a buffer of cap characters and leaves one for the terminator. */
  function Clip(s: string, cap: nat): (r: string)
    requires cap >= 1
    ensures r <= s && |r| == if |s| < cap then |s| else cap - 1
  {
    if |s| < cap then s else s[..cap - 1]
  }

  /** The first len characters of out are what fits of s. */
  ghost predicate Shows(out: array<char>, len: nat, s: string)
    reads out
  {
    out.Length >= 1 && len < out.Length && out[..len] == Clip(s, out.Length)
  }

  twostate predicate TailKept(out: array<char>, len: nat)
    reads out
  {
    forall k | len <= k < out.Length :: out[k] == old(out[k])
  }

  /** Writing one more character while there is room. */
  method Put(out: array<char>, len: nat, ghost s: string, c: char)
    requires Shows(out, len, s) && len < out.Length - 1
    modifies out
    ensures Shows(out, len + 1, s + [c]) && TailKept(out, len + 1)
  {
    assert s == out[..len];
    out[len] := c;
    assert out[..len + 1] == s + [c];
  }

  /** A full buffer shows whatever is appended. */
  lemma FullShows(out: array<char>, s: string, more: string)
    requires out.Length >= 1 && Shows(out, out.Length - 1, s)
    ensures Shows(out, out.Length - 1, s + more)
  {
    assert (s + more)[..out.Length - 1] == s[..out.Length - 1];
  }

  method AppendRaw(out: array<char>, start: nat, ghost s: string, more: string) returns (len: nat)
    requires Shows(out, start, s)
    modifies out
    ensures Shows(out, len, s + more) && len >= start && TailKept(out, len)
  {
    len := start;
    var i := 0;
    assert s + more[..0] == s;
    while i < |more| && len < out.Length - 1
      invariant i <= |more| && start <= len < out.Length
      invariant Shows(out, len, s + more[..i]) && TailKept(out, len)
    {
      assert s + more[..i + 1] == s + more[..i] + [more[i]];
      Put(out, len, s + more[..i], more[i]);
      len := len + 1;
      i := i + 1;
    }
    assert s + more == s + more[..i] + more[i..];
    if i < |more| { FullShows(out, s + more[..i], more[i..]); }
  }

  lemma SpecsAreClamped(s: string)
    ensures Clamped(SpecOf(s))
  {
  }

  /** Builds the directive and renders it into 192 bytes, before appending. */
  method RenderNumeric(out: array<char>, start: nat, ghost s: string,
                       printf: Printf, spec: FmtSpec, conv: string, v: Value) returns (len: nat)
    requires Shows(out, start, s) && Clamped(spec) && |conv| <= 3
    modifies out
    ensures Shows(out, len, s + Numeric(printf, spec, conv, v)) && len >= start && TailKept(out, len)
  {
    var directive := "%";
    if spec.zero { directive := directive + "0"; }
    if spec.width >= 0 { directive := directive + Decimal(spec.width); }
    if spec.prec >= 0 { directive := directive + "." + Decimal(spec.prec); }
    directive := directive + conv;
    DirectiveFits(spec, conv);
    assert directive == Directive(spec, conv);
    var text := printf(directive, v);
    var n := |text|;
    len := start;
    if n > 0 {
      len := AppendRaw(out, start, s, text[..if n < NUMERIC_BYTES then n else NUMERIC_BYTES - 1]);
    } else {
      assert s + text == s;
    }
  }

  lemma UnfitSpecs(pf: Printf, a: Arg, spec: FmtSpec)
    requires !spec.ok
    ensures Shown(pf, a, spec) == Shown(pf, a, NONE)
  {
  }

  /** Blanks, while there is room. */
  method Pad(out: array<char>, start: nat, ghost s: string, from: int, to: int) returns (len: nat)
    requires Shows(out, start, s) && from <= to
    modifies out
    ensures Shows(out, len, s + Spaces(to - from)) && len >= start && TailKept(out, len)
  {
    len := start;
    var k := from;
    assert s + Spaces(0) == s;
    while k < to && len < out.Length - 1
      invariant from <= k <= to && start <= len < out.Length
      invariant Shows(out, len, s + Spaces(k - from)) && TailKept(out, len)
    {
      assert s + Spaces(k + 1 - from) == s + Spaces(k - from) + [' '];
      Put(out, len, s + Spaces(k - from), ' ');
      len := len + 1;
      k := k + 1;
    }
    assert s + Spaces(to - from) == s + Spaces(k - from) + Spaces(to - k);
    if k < to { FullShows(out, s + Spaces(k - from), Spaces(to - k)); }
  }

  lemma StringFieldIs(text: string, spec: FmtSpec, n: nat)
    requires n == if 0 <= spec.prec < |text| then spec.prec else |text|
    ensures StringField(text, spec) == if spec.width > n then text[..n] + Spaces(spec.width - n) else text[..n]
  {
    assert text[..n] + Spaces(0) == text[..n];
  }

  /** Left-aligned text, padded while there is room. */
  method RenderString(out: array<char>, start: nat, ghost s: string, text: string, spec: FmtSpec) returns (len: nat)
    requires Shows(out, start, s)
    modifies out
    ensures Shows(out, len, s + if Textual(spec) then StringField(text, spec) else text)
    ensures len >= start && TailKept(out, len)
  {
    var n := |text|;
    if Textual(spec) {
      if spec.prec >= 0 && spec.prec < n { n := spec.prec; }
      StringFieldIs(text, spec, n);
      len := AppendRaw(out, start, s, text[..n]);
      if spec.width > n {
        len := Pad(out, len, s + text[..n], n, spec.width);
        assert s + text[..n] + Spaces(spec.width - n) == s + (text[..n] + Spaces(spec.width - n));
      }
      return;
    }
    len := AppendRaw(out, start, s, text);
  }

  method RenderBool(out: array<char>, start: nat, ghost s: string, printf: Printf, b: bool, spec: FmtSpec) returns (len: nat)
    requires Shows(out, start, s) && (spec.ok ==> Clamped(spec))
    modifies out
    ensures Shows(out, len, s + Shown(printf, Bool(b), spec)) && len >= start && TailKept(out, len)
  {
    if spec.ok && spec.prec < 0 && Integral(spec.kind) {
      len := RenderNumeric(out, start, s, printf, spec, "ll" + [spec.kind], Num(if b then 1 else 0));
    } else if Textual(spec) {
      len := RenderNumeric(out, start, s, printf, spec.(prec := -1), "s", Txt(BoolName(b)));
    } else {
      len := AppendRaw(out, start, s, BoolName(b));
    }
  }

  method RenderSigned(out: array<char>, start: nat, ghost s: string, printf: Printf, i: int, spec: FmtSpec) returns (len: nat)
    requires Shows(out, start, s) && (spec.ok ==> Clamped(spec))
    modifies out
    ensures Shows(out, len, s + Shown(printf, I64(i), spec)) && len >= start && TailKept(out, len)
  {
    if spec.ok && spec.prec < 0 && spec.kind != '\0' {
      if spec.kind == 'd' {
        len := RenderNumeric(out, start, s, printf, spec, "lld", Num(i));
        return;
      }
      if Radix(spec.kind) {
        len := RenderNumeric(out, start, s, printf, spec, "ll" + [spec.kind], Num(Wrap(i)));
        return;
      }
    } else if spec.ok && spec.prec < 0 && spec.kind == '\0' {
      len := RenderNumeric(out, start, s, printf, spec, "lld", Num(i));
      return;
    }
    len := RenderNumeric(out, start, s, printf, NONE, "lld", Num(i));
  }

  method RenderUnsigned(out: array<char>, start: nat, ghost s: string, printf: Printf, u: nat, spec: FmtSpec) returns (len: nat)
    requires Shows(out, start, s) && (spec.ok ==> Clamped(spec))
    modifies out
    ensures Shows(out, len, s + Shown(printf, U64(u), spec)) && len >= start && TailKept(out, len)
  {
    if spec.ok && spec.prec < 0 && (spec.kind == '\0' || spec.kind == 'd') {
      len := RenderNumeric(out, start, s, printf, spec, "llu", Num(u));
    } else if spec.ok && spec.prec < 0 && Radix(spec.kind) {
      len := RenderNumeric(out, start, s, printf, spec, "ll" + [spec.kind], Num(u));
    } else {
      len := RenderNumeric(out, start, s, printf, NONE, "llu", Num(u));
    }
  }

  method RenderDouble(out: array<char>, start: nat, ghost s: string, printf: Printf, bits: nat, spec: FmtSpec) returns (len: nat)
    requires Shows(out, start, s) && (spec.ok ==> Clamped(spec))
    modifies out
    ensures Shows(out, len, s + Shown(printf, F64(bits), spec)) && len >= start && TailKept(out, len)
  {
    var t := if spec.ok then spec.kind else '\0';
    if spec.ok && (Real(t) || t == '\0') {
      len := RenderNumeric(out, start, s, printf, spec, [if t == '\0' then 'g' else t], Dbl(bits));
    } else {
      len := RenderNumeric(out, start, s, printf, NONE, "g", Dbl(bits));
    }
  }

  method RenderArg(out: array<char>, start: nat, ghost s: string, printf: Printf, p: Pack, i: nat, spec: FmtSpec)
    returns (len: nat)
    requires Shows(out, start, s) && p.Valid() && i < p.count && (spec.ok ==> Clamped(spec))
    modifies out
    ensures p.Valid() && p.Args() == old(p.Args())
    ensures Shows(out, len, s + Shown(printf, p.Args()[i], spec)) && len >= start && TailKept(out, len)
  {
    var a := p.Load(i);
    match a
    case Bool(b) => len := RenderBool(out, start, s, printf, b, spec);
    case I64(v) => len := RenderSigned(out, start, s, printf, v, spec);
    case U64(v) => len := RenderUnsigned(out, start, s, printf, v, spec);
    case F64(v) => len := RenderDouble(out, start, s, printf, v, spec);
    case Str(v) => len := RenderString(out, start, s, v, spec);
  }

  /** after holds the part of s that fits, terminated, and is otherwise as before. */
  predicate Formatted(before: seq<char>, after: seq<char>, s: string) {
    && |before| == |after| >= 1
    && after == Clip(s, |after|) + ['\0'] + before[|Clip(s, |after|)| + 1..]
  }

  lemma FormattedFrom(before: seq<char>, after: seq<char>, len: nat, s: string)
    requires |before| == |after| >= 1 && len < |after|
    requires after[..len] == Clip(s, |after|) && after[len] == '\0'
    requires forall k | len < k < |after| :: after[k] == before[k]
    ensures Formatted(before, after, s)
  {
    assert after == after[..len] + [after[len]] + after[len + 1..];
    assert after[len + 1..] == before[len + 1..];
  }

  /** The text before the current character, and what is still to come. */
  ghost predicate Midway(fmt: string, args: seq<Arg>, show: Shower, done: string, c: nat, next: nat) {
    c <= |fmt| && Render(fmt, args, 0, show) == done + Render(fmt[c..], args, next, show)
  }

  lemma PairStep(fmt: string, args: seq<Arg>, show: Shower, done: string, c: nat, next: nat)
    requires Midway(fmt, args, show, done, c, next) && c + 1 < |fmt|
    requires fmt[c] == fmt[c + 1] && (fmt[c] == '{' || fmt[c] == '}')
    ensures Midway(fmt, args, show, done + [fmt[c]], c + 2, next)
  {
    assert fmt[c..][2..] == fmt[c + 2..];
  }

  lemma PlainStep(fmt: string, args: seq<Arg>, show: Shower, done: string, c: nat, next: nat)
    requires Midway(fmt, args, show, done, c, next) && c < |fmt| && fmt[c] != '{'
    requires !(fmt[c] == '}' && c + 1 < |fmt| && fmt[c + 1] == '}')
    ensures Midway(fmt, args, show, done + [fmt[c]], c + 1, next)
  {
    assert fmt[c..][1..] == fmt[c + 1..];
  }

  lemma HoleStep(fmt: string, args: seq<Arg>, show: Shower, done: string, c: nat, next: nat, j: nat)
    requires Midway(fmt, args, show, done, c, next) && c < |fmt| && fmt[c] == '{'
    requires !(c + 1 < |fmt| && fmt[c + 1] == '{')
    requires j == c + Close(fmt[c..])
    ensures j == |fmt| ==> Render(fmt, args, 0, show) == done
    ensures j < |fmt| ==> c < j && fmt[j] == '}'
    ensures j < |fmt| ==>
          Midway(fmt, args, show, done + Hole(args, next, fmt[c + 1..j], show), j + 1, After(args, next))
  {
    if j < |fmt| {
      assert fmt[c..][1..j - c] == fmt[c + 1..j] && fmt[c..][j - c + 1..] == fmt[j + 1..];
    }
  }

  lemma {:induction false} NoClose(s: string)
    requires '}' !in s
    ensures Close(s) == |s|
  {
    if |s| > 0 {
      assert s[0] in s;
      NoClose(s[1..]);
    }
  }

  /** The scan for the closing brace. */
  method FindClose(fmt: string, c: nat) returns (j: nat)
    requires c < |fmt|
    ensures j == c + Close(fmt[c..])
  {
    j := c;
    while j < |fmt| && fmt[j] != '}'
      invariant c <= j <= |fmt| && '}' !in fmt[c..j]
    {
      assert fmt[c..j + 1] == fmt[c..j] + [fmt[j]];
      j := j + 1;
    }
    assert fmt[c..][..j - c] == fmt[c..j];
    if j < |fmt| {
      CloseAt(fmt[c..], j - c);
    } else {
      assert fmt[c..j] == fmt[c..];
      NoClose(fmt[c..]);
    }
  }

  /** Where the placeholder at c is closed, and what rendering it means. */
  method NextHole(fmt: string, c: nat, ghost args: seq<Arg>, ghost show: Shower, ghost s: string, ghost next: nat)
    returns (j: nat)
    requires c < |fmt| && OpensHole(fmt, c) && Midway(fmt, args, show, s, c, next)
    ensures c < j <= |fmt|
    ensures j == |fmt| ==> Render(fmt, args, 0, show) == s
    ensures j < |fmt| ==> Midway(fmt, args, show, s + Hole(args, next, fmt[c + 1..j], show), j + 1, After(args, next))
  {
    j := FindClose(fmt, c);
    HoleStep(fmt, args, show, s, c, next, j);
  }

  lemma Finished(out: array<char>, len: nat, done: string, r: string)
    requires Shows(out, len, done) && (len == out.Length - 1 || done == r) && done <= r
    ensures Shows(out, len, r)
  {
    if done != r {
      assert r == done + r[|done|..];
      FullShows(out, done, r[|done|..]);
    }
  }

  /** The specification of a placeholder, parsed in place. */
  method ReadSpec(body: string) returns (spec: FmtSpec)
    ensures spec.ok == SpecFor(body).ok && (spec.ok ==> spec == SpecFor(body) && Clamped(spec))
  {
    spec := NONE;
    if body == "" {
      spec := spec.(ok := true);
    } else if body[0] == ':' {
      SpecsAreClamped(body[1..]);
      spec := ParseSpec(body[1..]);
    }
  }

  /** One placeholder of FormatMessage. */
  method ConsoleHole(out: array<char>, start: nat, ghost s: string, printf: Printf, p: Pack, next: nat, body: string)
    returns (len: nat)
    requires Shows(out, start, s) && p.Valid()
    modifies out
    ensures p.Valid() && p.Args() == old(p.Args())
    ensures Shows(out, len, s + Hole(p.Args(), next, body, Console(printf))) && len >= start && TailKept(out, len)
  {
    var spec := ReadSpec(body);
    if next < p.count {
      len := RenderArg(out, start, s, printf, p, next, spec);
      if !spec.ok {
        UnfitSpecs(printf, p.Args()[next], spec);
        UnfitSpecs(printf, p.Args()[next], SpecFor(body));
      }
    } else {
      len := AppendRaw(out, start, s, "{?}");
    }
  }

  /** A single opening brace starts a placeholder. */
  predicate OpensHole(fmt: string, c: nat)
    requires c < |fmt|
  {
    fmt[c] == '{' && !(c + 1 < |fmt| && fmt[c + 1] == '{')
  }

  /** Anything but a placeholder: a doubled brace, or a character that stands for itself. */
  method CopyText(out: array<char>, len: nat, ghost done: string, fmt: string, c: nat,
                  ghost args: seq<Arg>, ghost show: Shower, ghost next: nat)
    returns (after: nat)
    requires Shows(out, len, done) && len < out.Length - 1
    requires Midway(fmt, args, show, done, c, next) && c < |fmt| && !OpensHole(fmt, c)
    modifies out
    ensures Shows(out, len + 1, done + [fmt[c]]) && TailKept(out, len + 1)
    ensures c < after && Midway(fmt, args, show, done + [fmt[c]], after, next)
  {
    if fmt[c] == '{' && c + 1 < |fmt| && fmt[c + 1] == '{' {
      PairStep(fmt, args, show, done, c, next);
      Put(out, len, done, '{');
      after := c + 2;
    } else if fmt[c] == '}' && c + 1 < |fmt| && fmt[c + 1] == '}' {
      PairStep(fmt, args, show, done, c, next);
      Put(out, len, done, '}');
      after := c + 2;
    } else {
      PlainStep(fmt, args, show, done, c, next);
      Put(out, len, done, fmt[c]);
      after := c + 1;
    }
  }

  method Terminate(out: array<char>, len: nat, ghost done: string, ghost s: string)
    requires Shows(out, len, done) && (len == out.Length - 1 || done == s) && done <= s
    modifies out
    ensures Shows(out, len, s) && out[len] == '\0' && TailKept(out, len + 1)
  {
    Finished(out, len, done, s);
    out[len] := '\0';
    assert out[..len] == old(out[..len]);
  }

  /** A placeholder of FormatMessage, or the end of the text if it is never closed. */
  method TakeHole(out: array<char>, start: nat, ghost s: string, printf: Printf, fmt: string, p: Pack, c: nat, next: nat,
                  ghost args: seq<Arg>, ghost show: Shower)
    returns (open: bool, len: nat, after: nat, next2: nat, ghost done: string)
    requires p.Valid() && args == p.Args() && show == Console(printf)
    requires Shows(out, start, s) && c < |fmt| && OpensHole(fmt, c)
    requires Midway(fmt, args, show, s, c, next)
    modifies out
    ensures p.Valid() && p.Args() == args
    ensures Shows(out, len, done) && len >= start && TailKept(out, len)
    ensures open ==> done == Render(fmt, args, 0, show)
    ensures !open ==> c < after && Midway(fmt, args, show, done, after, next2)
  {
    var j := NextHole(fmt, c, args, show, s, next);
    if j == |fmt| {
      return true, start, c, next, s;
    }
    done := s + Hole(args, next, fmt[c + 1..j], show);
    open, after, next2 := false, j + 1, if next < p.count then next + 1 else next;
    assert next2 == After(args, next) && Midway(fmt, args, show, done, after, next2);
    len := ConsoleHole(out, start, s, printf, p, next, fmt[c + 1..j]);
  }

  lemma ConsoleTold(printf: Printf, fmt: string, args: seq<Arg>, before: seq<char>, after: seq<char>)
    requires Formatted(before, after, Render(fmt, args, 0, Console(printf))) && AllInRange(args)
    ensures forall items, tail | M.FormatOk(items, tail) && M.FormatText(items) + tail == fmt ::
              Formatted(before, after, M.Told(items, args, M.ConsoleTelling(printf)))
  {
    forall items, tail | M.FormatOk(items, tail) && M.FormatText(items) + tail == fmt
      ensures Formatted(before, after, M.Told(items, args, M.ConsoleTelling(printf)))
    {
      M.ConsoleRendersAsTold(printf, items, tail, args);
    }
  }

  method WriteConsole(out: array<char>, printf: Printf, fmt: string, p: Pack)
    requires out.Length >= 1 && p.Valid()
    modifies out
    ensures p.Valid() && p.Args() == old(p.Args())
    ensures Formatted(old(out[..]), out[..], Render(fmt, p.Args(), 0, Console(printf)))
  {
    var len: nat, next: nat, c: nat := 0, 0, 0;
    ghost var args, done := p.Args(), "";
    ghost var show := Console(printf);
    assert fmt[0..] == fmt;
    while c < |fmt| && len < out.Length - 1
      invariant len < out.Length && p.Valid() && p.Args() == args
      invariant Shows(out, len, done) && TailKept(out, len)
      invariant Midway(fmt, args, show, done, c, next)
    {
      if OpensHole(fmt, c) {
        var open: bool;
        open, len, c, next, done := TakeHole(out, len, done, printf, fmt, p, c, next, args, show);
        if open { break; }
      } else {
        var after := CopyText(out, len, done, fmt, c, args, show, next);
        done := done + [fmt[c]];
        len, c := len + 1, after;
      }
    }
    Terminate(out, len, done, Render(fmt, args, 0, show));
    FormattedFrom(old(out[..]), out[..], len, Render(fmt, args, 0, show));
  }

  /** The console formatter: whatever the buffer's size, the rendering cut to fit, terminated. */
  method FormatMessage(out: array<char>, printf: Printf, fmt: string, p: Pack)
    requires out.Length >= 1 && p.Valid()
    modifies out
    ensures p.Valid() && p.Args() == old(p.Args())
    ensures Formatted(old(out[..]), out[..], Render(fmt, p.Args(), 0, Console(printf)))
    ensures forall items, tail | M.FormatOk(items, tail) && M.FormatText(items) + tail == fmt ::
              Formatted(old(out[..]), out[..], M.Told(items, p.Args(), M.ConsoleTelling(printf)))
  {
    WriteConsole(out, printf, fmt, p);
    p.ArgsInRange();
    ConsoleTold(printf, fmt, p.Args(), old(out[..]), out[..]);
  }

  /** What snprintf leaves in the 64 bytes of AppendArg, copied out: its count must not reach the buffer's size. */
  method AppendShort(out: array<char>, start: nat, ghost s: string, text: string) returns (len: nat)
    requires Shows(out, start, s) && |text| < SHORT_BYTES
    modifies out
    ensures Shows(out, len, s + text) && len >= start && TailKept(out, len)
  {
    len := AppendRaw(out, start, s, text);
  }

  const SHORT_BYTES: nat := 64

  /** One argument of FormatInto in its default rendering. */
  method AppendArg(out: array<char>, start: nat, ghost s: string, printf: Printf, p: Pack, i: nat) returns (len: nat)
    requires Libc(printf) && Shows(out, start, s) && p.Valid() && i < p.count && InRange(p.Args()[i])
    modifies out
    ensures p.Valid() && p.Args() == old(p.Args())
    ensures Shows(out, len, s + Plain(printf, p.Args()[i])) && len >= start && TailKept(out, len)
  {
    var a := p.Load(i);
    match a
    case Bool(b) => len := AppendShort(out, start, s, printf("%s", Txt(BoolName(b))));
    case I64(v) => len := AppendShort(out, start, s, printf("%ld", Num(v)));
    case U64(v) => len := AppendShort(out, start, s, printf("%lu", Num(v)));
    case F64(v) => len := AppendShort(out, start, s, printf("%g", Dbl(v)));
    case Str(v) => len := AppendRaw(out, start, s, v);
  }

  method UnboundHole(out: array<char>, start: nat, ghost s: string, printf: Printf, p: Pack, next: nat, ghost body: string)
    returns (len: nat)
    requires Libc(printf) && Shows(out, start, s) && p.Valid() && AllInRange(p.Args())
    modifies out
    ensures p.Valid() && p.Args() == old(p.Args())
    ensures Shows(out, len, s + Hole(p.Args(), next, body, Unbound(printf))) && len >= start && TailKept(out, len)
  {
    if next < p.count {
      len := AppendArg(out, start, s, printf, p, next);
    } else {
      len := AppendRaw(out, start, s, "{?}");
    }
  }

  /** A placeholder of FormatInto: what is between the braces is ignored. */
  method SkipHole(out: array<char>, start: nat, ghost s: string, printf: Printf, fmt: string, p: Pack, c: nat, next: nat,
                  ghost args: seq<Arg>, ghost show: Shower)
    returns (open: bool, len: nat, after: nat, next2: nat, ghost done: string)
    requires p.Valid() && args == p.Args() && show == Unbound(printf)
    requires Libc(printf) && Shows(out, start, s) && c < |fmt| && OpensHole(fmt, c)
    requires AllInRange(args)
    requires Midway(fmt, args, show, s, c, next)
    modifies out
    ensures p.Valid() && p.Args() == args
    ensures Shows(out, len, done) && len >= start && TailKept(out, len)
    ensures open ==> done == Render(fmt, args, 0, show)
    ensures !open ==> c < after && Midway(fmt, args, show, done, after, next2)
  {
    var j := NextHole(fmt, c, args, show, s, next);
    if j == |fmt| {
      return true, start, c, next, s;
    }
    done := s + Hole(args, next, fmt[c + 1..j], show);
    open, after, next2 := false, j + 1, if next < p.count then next + 1 else next;
    assert next2 == After(args, next) && Midway(fmt, args, show, done, after, next2);
    len := UnboundHole(out, start, s, printf, p, next, fmt[c + 1..j]);
  }

  lemma UnboundTold(printf: Printf, fmt: string, args: seq<Arg>, before: seq<char>, after: seq<char>)
    requires Formatted(before, after, Render(fmt, args, 0, Unbound(printf)))
    ensures forall items, tail | M.FormatOk(items, tail) && M.FormatText(items) + tail == fmt ::
              Formatted(before, after, M.Told(items, args, M.UnboundTelling(printf)))
  {
    forall items, tail | M.FormatOk(items, tail) && M.FormatText(items) + tail == fmt
      ensures Formatted(before, after, M.Told(items, args, M.UnboundTelling(printf)))
    {
      M.UnboundRendersAsTold(printf, items, tail, args);
    }
  }

  /** One character or placeholder of FormatInto. */
  method UnboundStep(out: array<char>, start: nat, ghost s: string, printf: Printf, fmt: string, p: Pack, c: nat, next: nat,
                     ghost args: seq<Arg>, ghost show: Shower)
    returns (open: bool, len: nat, after: nat, next2: nat, ghost done: string)
    requires p.Valid() && args == p.Args() && show == Unbound(printf) && AllInRange(args)
    requires Libc(printf) && Shows(out, start, s) && start < out.Length - 1 && c < |fmt|
    requires Midway(fmt, args, show, s, c, next)
    modifies out
    ensures p.Valid() && p.Args() == args
    ensures Shows(out, len, done) && len >= start && TailKept(out, len)
    ensures open ==> done == Render(fmt, args, 0, show)
    ensures !open ==> c < after && Midway(fmt, args, show, done, after, next2)
  {
    if OpensHole(fmt, c) {
      open, len, after, next2, done := SkipHole(out, start, s, printf, fmt, p, c, next, args, show);
    } else {
      after := CopyText(out, start, s, fmt, c, args, show, next);
      open, len, next2, done := false, start + 1, next, s + [fmt[c]];
    }
  }

  method WriteUnbound(out: array<char>, printf: Printf, fmt: string, p: Pack)
    requires Libc(printf) && out.Length >= 1 && p.Valid()
    modifies out
    ensures p.Valid() && p.Args() == old(p.Args())
    ensures Formatted(old(out[..]), out[..], Render(fmt, p.Args(), 0, Unbound(printf)))
  {
    var len: nat, next: nat, c: nat := 0, 0, 0;
    ghost var args, done := p.Args(), "";
    ghost var show := Unbound(printf);
    p.ArgsInRange();
    assert fmt[0..] == fmt;
    while c < |fmt| && len < out.Length - 1
      invariant len < out.Length && p.Valid() && p.Args() == args
      invariant Shows(out, len, done) && TailKept(out, len)
      invariant Midway(fmt, args, show, done, c, next)
    {
      var open: bool;
      open, len, c, next, done := UnboundStep(out, len, done, printf, fmt, p, c, next, args, show);
      if open { break; }
    }
    Terminate(out, len, done, Render(fmt, args, 0, show));
    FormattedFrom(old(out[..]), out[..], len, Render(fmt, args, 0, show));
  }

  /** The unbound formatter. */
  method FormatInto(out: array<char>, printf: Printf, fmt: string, p: Pack)
    requires Libc(printf) && out.Length >= 1 && p.Valid()
    modifies out
    ensures p.Valid() && p.Args() == old(p.Args())
    ensures Formatted(old(out[..]), out[..], Render(fmt, p.Args(), 0, Unbound(printf)))
    ensures forall items, tail | M.FormatOk(items, tail) && M.FormatText(items) + tail == fmt ::
              Formatted(old(out[..]), out[..], M.Told(items, p.Args(), M.UnboundTelling(printf)))
  {
    WriteUnbound(out, printf, fmt, p);
    p.ArgsInRange();
    UnboundTold(printf, fmt, p.Args(), old(out[..]), out[..]);
  }

  /** Packed and formatted by either formatter, a message without applicable specifications comes out the same. */
  method BothFormatters(printf: Printf, fmt: string, inputs: seq<Input>, cap: nat)
    returns (console: array<char>, unbound: array<char>)
    requires Libc(printf) && cap >= 1 && AllDefault(fmt)
    requires forall i | 0 <= i < |inputs| :: InRange(Text(inputs[i]))
    ensures console.Length == unbound.Length == cap && console[..] == unbound[..]
  {
    ghost var src: seq<nat>;
    var p: Pack;
    p, src := PackArgs(inputs);
    p.ArgsInRange();
    FormattersAgree(printf, fmt, p.Args(), 0);
    ghost var args := p.Args();
    console := new char[cap](i => '\0');
    unbound := new char[cap](i => '\0');
    assert p.Args() == args && console[..] == unbound[..];
    FormatMessage(console, printf, fmt, p);
    FormatInto(unbound, printf, fmt, p);
  }
}
