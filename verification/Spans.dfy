/**
 Span (include/xmbase/telemetry/span.hpp) and ContextGuard (include/xmbase/telemetry/context.hpp) on one thread: RAII
 scopes that replace the current context and put it back, and the records that spans emit when they close.

 Ids come from a stream of non-zero numbers (IdGenerator). Timestamps and names carry no logic; the binding is
 installed throughout.
 */
module Spans {

  const MAX_LINKS: nat := 4

  datatype Context = Context(hi: nat, lo: nat, span: nat) {
    predicate Valid() {
      hi != 0 || lo != 0
    }
  }

  /** What a span emits. */
  datatype Record = Record(name: string, ctx: Context, parent: nat, links: seq<Context>)

  type Ids = nat -> nat

  predicate SameTrace(a: Context, b: Context) {
    a.hi == b.hi && a.lo == b.lo
  }

  // ---- what opening a span under a context does, from id n on ----

  function Draws(ctx: Context): nat {
    if ctx.Valid() then 1 else 3
  }

  function Parent(ctx: Context): nat {
    if ctx.Valid() then ctx.span else 0
  }

  function Child(ids: Ids, ctx: Context, n: nat): Context {
    if ctx.Valid() then ctx.(span := ids(n)) else Context(ids(n), ids(n + 1), ids(n + 2))
  }

  /** One more link: dropped if it is invalid or four are kept already. */
  function Keep(kept: seq<Context>, link: Context): seq<Context> {
    if |kept| < MAX_LINKS && link.Valid() then kept + [link] else kept
  }

  function KeepAll(kept: seq<Context>, links: seq<Context>): seq<Context>
    decreases |links|
  {
    if |links| == 0 then kept else KeepAll(Keep(kept, links[0]), links[1..])
  }

  lemma {:induction false} KeepAllThen(kept: seq<Context>, a: seq<Context>, b: seq<Context>)
    ensures KeepAll(kept, a + b) == KeepAll(KeepAll(kept, a), b)
    decreases |a|
  {
    if |a| == 0 {
      assert a + b == b;
    } else {
      assert (a + b)[1..] == a[1..] + b;
      KeepAllThen(Keep(kept, a[0]), a[1..], b);
    }
  }

  /** The links that name a trace. */
  function OnlyValid(links: seq<Context>): seq<Context> {
    if |links| == 0 then []
    else (if links[0].hi != 0 || links[0].lo != 0 then [links[0]] else []) + OnlyValid(links[1..])
  }

  function FirstFour(links: seq<Context>): seq<Context> {
    if |links| < 4 then links else links[..4]
  }

  lemma FourStay(kept: seq<Context>, a: seq<Context>, b: seq<Context>)
    requires |kept| == MAX_LINKS
    ensures FirstFour(kept + a) == FirstFour(kept + b)
  {
    assert (kept + a)[..MAX_LINKS] == kept == (kept + b)[..MAX_LINKS];
  }

  lemma Regroup(a: seq<Context>, b: seq<Context>, c: seq<Context>)
    ensures a + b + c == a + (b + c)
  {
  }

  /** Adding links one by one keeps the first four valid ones. */
  lemma {:induction false} KeepsFirstFour(kept: seq<Context>, links: seq<Context>)
    requires |kept| <= MAX_LINKS
    ensures KeepAll(kept, links) == FirstFour(kept + OnlyValid(links))
    decreases |links|
  {
    if |links| == 0 {
      assert kept + [] == kept;
      assert |kept| == MAX_LINKS ==> kept[..MAX_LINKS] == kept;
    } else {
      var more := OnlyValid(links[1..]);
      KeepsFirstFour(Keep(kept, links[0]), links[1..]);
      if !links[0].Valid() {
        assert OnlyValid(links) == more;
      } else if |kept| < MAX_LINKS {
        Regroup(kept, [links[0]], more);
      } else {
        FourStay(kept, more, OnlyValid(links));
      }
    }
  }

  class Thread {
    const ids: Ids
    var drawn: nat
    var current: Context
    var emitted: seq<Record>

    constructor (ids: Ids)
      ensures this.ids == ids && drawn == 0 && emitted == [] && current == Context(0, 0, 0)
    {
      this.ids := ids;
      drawn, emitted, current := 0, [], Context(0, 0, 0);
    }

    method NextId() returns (id: nat)
      modifies this`drawn
      ensures id == ids(old(drawn)) && drawn == old(drawn) + 1
    {
      id := ids(drawn);
      drawn := drawn + 1;
    }
  }

  class Span {
    const name: string
    const saved: Context
    const parent: nat
    const links: array<Context>
    var linkCount: nat

    ghost predicate Valid()
      reads this
    {
      links.Length == MAX_LINKS && linkCount <= MAX_LINKS
    }

    constructor (t: Thread, name: string)
      modifies t`drawn, t`current
      ensures Valid() && fresh(links) && linkCount == 0 && this.name == name
      ensures saved == old(t.current) && parent == Parent(saved)
      ensures t.current == Child(t.ids, saved, old(t.drawn)) && t.drawn == old(t.drawn) + Draws(saved)
    {
      this.name := name;
      saved := t.current;
      parent := if t.current.Valid() then t.current.span else 0;
      links := new Context[MAX_LINKS](i => Context(0, 0, 0));
      linkCount := 0;
      new;
      var child := saved;
      if !child.Valid() {
        var hi := t.NextId();
        var lo := t.NextId();
        child := Context(hi, lo, 0);
      }
      var id := t.NextId();
      child := child.(span := id);
      t.current := child;
    }

    method AddLink(link: Context)
      requires Valid()
      modifies this`linkCount, links
      ensures Valid()
      ensures links[..linkCount] == Keep(old(links[..linkCount]), link)
    {
      if linkCount < MAX_LINKS && link.Valid() {
        links[linkCount] := link;
        linkCount := linkCount + 1;
      }
    }

    /** The destructor: restores first, then reports. */
    method Close(t: Thread)
      requires Valid()
      modifies t`current, t`emitted
      ensures t.current == saved
      ensures t.emitted == old(t.emitted) + [Record(name, old(t.current), parent, links[..linkCount])]
    {
      var ctx := t.current;
      t.current := saved;
      t.emitted := t.emitted + [Record(name, ctx, parent, links[..linkCount])];
    }
  }

  class ContextGuard {
    const saved: Context

    constructor (t: Thread, ctx: Context)
      modifies t`current
      ensures saved == old(t.current) && t.current == ctx
    {
      saved := t.current;
      new;
      t.current := ctx;
    }

    method Close(t: Thread)
      modifies t`current
      ensures t.current == saved
    {
      t.current := saved;
    }
  }

  // ---- well-nested runs ----

  /** What happens in a scope, in order: inner scopes, and links added to the span that is `up` spans further out. */
  datatype Scopes =
    | Empty
    | InSpan(name: string, body: Scopes, rest: Scopes)
    | InGuard(ctx: Context, body: Scopes, rest: Scopes)
    | AddingLink(up: nat, link: Context, rest: Scopes)

  /** Links are added to open spans only; `open` counts those outside. */
  predicate WellScoped(ss: Scopes, open: nat) {
    match ss
    case Empty => true
    case InSpan(_, body, rest) => WellScoped(body, open + 1) && WellScoped(rest, open)
    case InGuard(_, body, rest) => WellScoped(body, open) && WellScoped(rest, open)
    case AddingLink(up, _, rest) => up < open && WellScoped(rest, open)
  }

  /** The links that a run adds to the open span that is `up` spans out, in order. */
  function LinksTo(ss: Scopes, up: nat): seq<Context> {
    match ss
    case Empty => []
    case InSpan(_, body, rest) => LinksTo(body, up + 1) + LinksTo(rest, up)
    case InGuard(_, body, rest) => LinksTo(body, up) + LinksTo(rest, up)
    case AddingLink(u, link, rest) => (if u == up then [link] else []) + LinksTo(rest, up)
  }

  /** The record of a span opened under ctx, from id n on, around body. */
  function RecordOf(ids: Ids, name: string, body: Scopes, ctx: Context, n: nat): Record {
    Record(name, Child(ids, ctx, n), Parent(ctx), KeepAll([], LinksTo(body, 0)))
  }

  /** The records of a run under ctx, from id n on, and the next id. */
  function Emitted(ids: Ids, ss: Scopes, ctx: Context, n: nat): (seq<Record>, nat) {
    match ss
    case Empty => ([], n)
    case InSpan(name, body, rest) =>
      var (inner, m) := Emitted(ids, body, Child(ids, ctx, n), n + Draws(ctx));
      var (after, k) := Emitted(ids, rest, ctx, m);
      (inner + [RecordOf(ids, name, body, ctx, n)] + after, k)
    case InGuard(c, body, rest) =>
      var (inner, m) := Emitted(ids, body, c, n);
      var (after, k) := Emitted(ids, rest, ctx, m);
      (inner + after, k)
    case AddingLink(_, _, rest) => Emitted(ids, rest, ctx, n)
  }

  /** The records of one span around body, opened under ctx from id n on, and the next id. */
  function SpanEmitted(ids: Ids, name: string, body: Scopes, ctx: Context, n: nat): (seq<Record>, nat) {
    var (inner, m) := Emitted(ids, body, Child(ids, ctx, n), n + Draws(ctx));
    (inner + [RecordOf(ids, name, body, ctx, n)], m)
  }

  /** after is before and the records of e, and the next id is drawn. */
  predicate Adds(before: seq<Record>, after: seq<Record>, drawn: nat, e: (seq<Record>, nat)) {
    after == before + e.0 && drawn == e.1
  }

  lemma AddsThen(before: seq<Record>, mid: seq<Record>, after: seq<Record>, drawn: nat,
                 e: (seq<Record>, nat), f: (seq<Record>, nat))
    requires mid == before + e.0 && Adds(mid, after, drawn, f)
    ensures Adds(before, after, drawn, (e.0 + f.0, f.1))
  {
    Joined(before, e.0, f.0);
  }

  lemma Joined(a: seq<Record>, b: seq<Record>, c: seq<Record>)
    ensures a + b + c == a + (b + c)
  {
  }

  ghost predicate Open(open: seq<Span>)
    reads open
  {
    && (forall i | 0 <= i < |open| :: open[i].Valid())
    && (forall i, j | 0 <= i < j < |open| :: open[i] != open[j] && open[i].links != open[j].links)
  }

  ghost function LinksOf(span: Span): seq<Context>
    requires span.Valid()
    reads span, span.links
  {
    span.links[..span.linkCount]
  }

  /** ls are the links of the open spans, outermost first. */
  ghost predicate Holding(open: seq<Span>, ls: seq<seq<Context>>)
    reads open, set s | s in open :: s.links
  {
    && |ls| == |open| && Open(open)
    && forall i | 0 <= i < |open| :: LinksOf(open[i]) == ls[i]
  }

  /** What a run adds to the links of each open span. */
  function Added(ls: seq<seq<Context>>, ss: Scopes): (r: seq<seq<Context>>)
    ensures |r| == |ls|
  {
    seq(|ls|, i requires 0 <= i < |ls| => KeepAll(ls[i], LinksTo(ss, |ls| - 1 - i)))
  }

  predicate SameAdded(ls: seq<seq<Context>>, a: Scopes, ms: seq<seq<Context>>, b: Scopes) {
    && |ls| == |ms|
    && forall i | 0 <= i < |ls| :: KeepAll(ls[i], LinksTo(a, |ls| - 1 - i)) == KeepAll(ms[i], LinksTo(b, |ls| - 1 - i))
  }

  lemma AddedSame(ls: seq<seq<Context>>, a: Scopes, ms: seq<seq<Context>>, b: Scopes)
    requires SameAdded(ls, a, ms, b)
    ensures Added(ls, a) == Added(ms, b)
  {
  }

  lemma KeptInSpan(kept: seq<Context>, name: string, body: Scopes, rest: Scopes, u: nat)
    ensures KeepAll(KeepAll(kept, LinksTo(body, u + 1)), LinksTo(rest, u))
         == KeepAll(kept, LinksTo(InSpan(name, body, rest), u))
  {
    KeepAllThen(kept, LinksTo(body, u + 1), LinksTo(rest, u));
  }

  lemma AddedSpanEach(ls: seq<seq<Context>>, name: string, body: Scopes, rest: Scopes)
    ensures SameAdded(Added(ls + [[]], body)[..|ls|], rest, ls, InSpan(name, body, rest))
  {
    forall i | 0 <= i < |ls|
      ensures KeepAll(Added(ls + [[]], body)[..|ls|][i], LinksTo(rest, |ls| - 1 - i))
           == KeepAll(ls[i], LinksTo(InSpan(name, body, rest), |ls| - 1 - i))
    {
      KeptInSpan(ls[i], name, body, rest, |ls| - 1 - i);
    }
  }

  lemma AddedSpan(ls: seq<seq<Context>>, name: string, body: Scopes, rest: Scopes)
    ensures Added(Added(ls + [[]], body)[..|ls|], rest) == Added(ls, InSpan(name, body, rest))
  {
    AddedSpanEach(ls, name, body, rest);
    AddedSame(Added(ls + [[]], body)[..|ls|], rest, ls, InSpan(name, body, rest));
  }

  lemma KeptInGuard(kept: seq<Context>, c: Context, body: Scopes, rest: Scopes, u: nat)
    ensures KeepAll(KeepAll(kept, LinksTo(body, u)), LinksTo(rest, u)) == KeepAll(kept, LinksTo(InGuard(c, body, rest), u))
  {
    KeepAllThen(kept, LinksTo(body, u), LinksTo(rest, u));
  }

  lemma AddedGuardEach(ls: seq<seq<Context>>, c: Context, body: Scopes, rest: Scopes)
    ensures SameAdded(Added(ls, body), rest, ls, InGuard(c, body, rest))
  {
    forall i | 0 <= i < |ls|
      ensures KeepAll(Added(ls, body)[i], LinksTo(rest, |ls| - 1 - i))
           == KeepAll(ls[i], LinksTo(InGuard(c, body, rest), |ls| - 1 - i))
    {
      KeptInGuard(ls[i], c, body, rest, |ls| - 1 - i);
    }
  }

  lemma AddedGuard(ls: seq<seq<Context>>, c: Context, body: Scopes, rest: Scopes)
    ensures Added(Added(ls, body), rest) == Added(ls, InGuard(c, body, rest))
  {
    AddedGuardEach(ls, c, body, rest);
    AddedSame(Added(ls, body), rest, ls, InGuard(c, body, rest));
  }

  lemma KeepThenAll(kept: seq<Context>, link: Context, links: seq<Context>)
    ensures KeepAll(Keep(kept, link), links) == KeepAll(kept, [link] + links)
  {
    assert ([link] + links)[1..] == links;
  }

  lemma LinksToLater(up: nat, link: Context, rest: Scopes, u: nat)
    ensures LinksTo(AddingLink(up, link, rest), u) == if u == up then [link] + LinksTo(rest, u) else LinksTo(rest, u)
  {
    assert [] + LinksTo(rest, u) == LinksTo(rest, u);
  }

  /** One link added to the span that is up spans out. */
  function WithLink(ls: seq<seq<Context>>, up: nat, link: Context): (r: seq<seq<Context>>)
    requires up < |ls|
    ensures |r| == |ls|
  {
    var k := |ls| - 1 - up;
    ls[k := Keep(ls[k], link)]
  }

  lemma WithLinkAt(ls: seq<seq<Context>>, up: nat, link: Context, i: nat)
    requires up < |ls| && i < |ls|
    ensures WithLink(ls, up, link)[i] == if |ls| - 1 - i == up then Keep(ls[i], link) else ls[i]
  {
  }

  lemma AddedLinkAt(ls: seq<seq<Context>>, up: nat, link: Context, rest: Scopes, i: nat)
    requires up < |ls| && i < |ls|
    ensures KeepAll(WithLink(ls, up, link)[i], LinksTo(rest, |ls| - 1 - i))
         == KeepAll(ls[i], LinksTo(AddingLink(up, link, rest), |ls| - 1 - i))
  {
    var u: nat, kept := |ls| - 1 - i, ls[i];
    var now, links, more := WithLink(ls, up, link)[i], LinksTo(rest, u), LinksTo(AddingLink(up, link, rest), u);
    WithLinkAt(ls, up, link, i);
    LinksToLater(up, link, rest, u);
    if u == up {
      assert now == Keep(kept, link) && more == [link] + links;
      KeepThenAll(kept, link, links);
    } else {
      assert now == kept && more == links;
    }
  }

  lemma AddedLinkEach(ls: seq<seq<Context>>, up: nat, link: Context, rest: Scopes)
    requires up < |ls|
    ensures SameAdded(WithLink(ls, up, link), rest, ls, AddingLink(up, link, rest))
  {
    forall i: nat | i < |ls|
      ensures KeepAll(WithLink(ls, up, link)[i], LinksTo(rest, |ls| - 1 - i))
           == KeepAll(ls[i], LinksTo(AddingLink(up, link, rest), |ls| - 1 - i))
    {
      AddedLinkAt(ls, up, link, rest, i);
    }
  }

  lemma AddedLink(ls: seq<seq<Context>>, up: nat, link: Context, rest: Scopes)
    requires up < |ls|
    ensures Added(WithLink(ls, up, link), rest) == Added(ls, AddingLink(up, link, rest))
  {
    AddedLinkEach(ls, up, link, rest);
    AddedSame(WithLink(ls, up, link), rest, ls, AddingLink(up, link, rest));
  }

  /** Runs the scopes inside the given open spans: every context is put back, and records come out in closing order. */
  method Execute(t: Thread, ss: Scopes, open: seq<Span>, ghost ls: seq<seq<Context>>)
    requires Holding(open, ls) && WellScoped(ss, |open|)
    modifies t`drawn, t`current, t`emitted, open, set s | s in open :: s.links
    ensures Holding(open, Added(ls, ss))
    ensures t.current == old(t.current)
    ensures Adds(old(t.emitted), t.emitted, t.drawn, Emitted(t.ids, ss, old(t.current), old(t.drawn)))
    decreases ss, 1
  {
    match ss
    case Empty =>
      assert Added(ls, Empty) == ls;
    case InSpan(_, _, _) => SpanThenRest(t, ss, open, ls);
    case InGuard(_, _, _) => GuardThenRest(t, ss, open, ls);
    case AddingLink(_, _, _) => LinkThenRest(t, ss, open, ls);
  }

  method SpanThenRest(t: Thread, ss: Scopes, open: seq<Span>, ghost ls: seq<seq<Context>>)
    requires ss.InSpan? && Holding(open, ls) && WellScoped(ss, |open|)
    modifies t`drawn, t`current, t`emitted, open, set s | s in open :: s.links
    ensures Holding(open, Added(ls, ss))
    ensures t.current == old(t.current)
    ensures Adds(old(t.emitted), t.emitted, t.drawn, Emitted(t.ids, ss, old(t.current), old(t.drawn)))
    decreases ss, 0
  {
    ghost var before, ctx := t.emitted, t.current;
    ghost var first := SpanEmitted(t.ids, ss.name, ss.body, ctx, t.drawn);
    AddedSpan(ls, ss.name, ss.body, ss.rest);
    RunSpan(t, ss.name, ss.body, open, ls);
    ghost var mid := t.emitted;
    Execute(t, ss.rest, open, Added(ls + [[]], ss.body)[..|ls|]);
    AddsThen(before, mid, t.emitted, t.drawn, first, Emitted(t.ids, ss.rest, ctx, first.1));
  }

  method GuardThenRest(t: Thread, ss: Scopes, open: seq<Span>, ghost ls: seq<seq<Context>>)
    requires ss.InGuard? && Holding(open, ls) && WellScoped(ss, |open|)
    modifies t`drawn, t`current, t`emitted, open, set s | s in open :: s.links
    ensures Holding(open, Added(ls, ss))
    ensures t.current == old(t.current)
    ensures Adds(old(t.emitted), t.emitted, t.drawn, Emitted(t.ids, ss, old(t.current), old(t.drawn)))
    decreases ss, 0
  {
    ghost var before, ctx := t.emitted, t.current;
    ghost var first := Emitted(t.ids, ss.body, ss.ctx, t.drawn);
    AddedGuard(ls, ss.ctx, ss.body, ss.rest);
    RunGuard(t, ss.ctx, ss.body, open, ls);
    ghost var mid := t.emitted;
    Execute(t, ss.rest, open, Added(ls, ss.body));
    AddsThen(before, mid, t.emitted, t.drawn, first, Emitted(t.ids, ss.rest, ctx, first.1));
  }

  method LinkThenRest(t: Thread, ss: Scopes, open: seq<Span>, ghost ls: seq<seq<Context>>)
    requires ss.AddingLink? && Holding(open, ls) && WellScoped(ss, |open|)
    modifies t`drawn, t`current, t`emitted, open, set s | s in open :: s.links
    ensures Holding(open, Added(ls, ss))
    ensures t.current == old(t.current)
    ensures Adds(old(t.emitted), t.emitted, t.drawn, Emitted(t.ids, ss, old(t.current), old(t.drawn)))
    decreases ss, 0
  {
    AddedLink(ls, ss.up, ss.link, ss.rest);
    AddLinkTo(open, ss.up, ss.link, ls);
    Execute(t, ss.rest, open, WithLink(ls, ss.up, ss.link));
  }

  method AddLinkTo(open: seq<Span>, up: nat, link: Context, ghost ls: seq<seq<Context>>)
    requires Holding(open, ls) && up < |open|
    modifies open, set s | s in open :: s.links
    ensures Holding(open, WithLink(ls, up, link))
  {
    open[|open| - 1 - up].AddLink(link);
  }

  /** One guard around its body. */
  method RunGuard(t: Thread, c: Context, body: Scopes, open: seq<Span>, ghost ls: seq<seq<Context>>)
    requires Holding(open, ls) && WellScoped(body, |open|)
    modifies t`drawn, t`current, t`emitted, open, set s | s in open :: s.links
    ensures Holding(open, Added(ls, body))
    ensures t.current == old(t.current)
    ensures Adds(old(t.emitted), t.emitted, t.drawn, Emitted(t.ids, body, c, old(t.drawn)))
    decreases body, 2
  {
    var guard := new ContextGuard(t, c);
    Execute(t, body, open, ls);
    guard.Close(t);
  }

  /** The constructor of a span inside the open ones. */
  method OpenSpan(t: Thread, name: string, open: seq<Span>, ghost ls: seq<seq<Context>>) returns (span: Span)
    requires Holding(open, ls)
    modifies t`drawn, t`current
    ensures fresh(span) && fresh(span.links) && Holding(open + [span], ls + [[]])
    ensures span.name == name && span.saved == old(t.current) && span.parent == Parent(span.saved)
    ensures t.current == Child(t.ids, span.saved, old(t.drawn)) && t.drawn == old(t.drawn) + Draws(span.saved)
  {
    span := new Span(t, name);
    assert LinksOf(span) == [];
  }

  lemma LastOpen(open: seq<Span>, span: Span, ls: seq<seq<Context>>)
    requires |ls| == |open| + 1 && Holding(open + [span], ls)
    ensures Holding(open, ls[..|open|]) && span.Valid() && LinksOf(span) == ls[|open|]
  {
    var inside := open + [span];
    assert inside[|open|] == span;
    forall i, j | 0 <= i < j < |open| ensures open[i] != open[j] && open[i].links != open[j].links {
      assert inside[i] == open[i] && inside[j] == open[j];
    }
    forall i | 0 <= i < |open| ensures open[i].Valid() && LinksOf(open[i]) == ls[i] { assert inside[i] == open[i]; }
  }

  lemma OwnRecord(ids: Ids, name: string, body: Scopes, ctx: Context, n: nat, ls: seq<seq<Context>>)
    ensures RecordOf(ids, name, body, ctx, n)
         == Record(name, Child(ids, ctx, n), Parent(ctx), Added(ls + [[]], body)[|ls|])
  {
  }

  /** The destructor of the innermost open span. */
  method CloseSpan(t: Thread, span: Span, open: seq<Span>, ghost ls: seq<seq<Context>>)
    requires |ls| == |open| + 1 && Holding(open + [span], ls)
    modifies t`current, t`emitted
    ensures Holding(open, ls[..|open|])
    ensures t.current == span.saved
    ensures t.emitted == old(t.emitted) + [Record(span.name, old(t.current), span.parent, ls[|open|])]
  {
    LastOpen(open, span, ls);
    span.Close(t);
  }

  /** As CloseSpan, for a span whose record is known, after its body emitted inner. */
  method FinishSpan(t: Thread, span: Span, open: seq<Span>, ghost ls: seq<seq<Context>>,
                    ghost before: seq<Record>, ghost inner: seq<Record>, ghost own: Record)
    requires |ls| == |open| + 1 && Holding(open + [span], ls) && t.emitted == before + inner
    requires own == Record(span.name, t.current, span.parent, ls[|open|])
    modifies t`current, t`emitted
    ensures Holding(open, ls[..|open|]) && t.current == span.saved
    ensures t.emitted == before + (inner + [own])
  {
    CloseSpan(t, span, open, ls);
    Joined(before, inner, [own]);
  }

  /** One span around its body. */
  method RunSpan(t: Thread, name: string, body: Scopes, open: seq<Span>, ghost ls: seq<seq<Context>>)
    requires Holding(open, ls) && WellScoped(body, |open| + 1)
    modifies t`drawn, t`current, t`emitted, open, set s | s in open :: s.links
    ensures Holding(open, Added(ls + [[]], body)[..|ls|])
    ensures t.current == old(t.current)
    ensures Adds(old(t.emitted), t.emitted, t.drawn, SpanEmitted(t.ids, name, body, old(t.current), old(t.drawn)))
    decreases body, 2
  {
    var span := OpenSpan(t, name, open, ls);
    ghost var inner := Emitted(t.ids, body, t.current, t.drawn);
    Execute(t, body, open + [span], ls + [[]]);
    OwnRecord(t.ids, name, body, old(t.current), old(t.drawn), ls);
    FinishSpan(t, span, open, Added(ls + [[]], body), old(t.emitted), inner.0,
               RecordOf(t.ids, name, body, old(t.current), old(t.drawn)));
  }

  // ---- what the records say ----

  /** r was opened directly under c: in c's trace and with c's span as parent, or as a root if c has no trace. */
  predicate OpenedUnder(r: Record, c: Context) {
    if c.hi != 0 || c.lo != 0 then SameTrace(r.ctx, c) && r.parent == c.span else r.parent == 0
  }

  /** The end of a scope: the context that was current inside it, how deep it was nested, what it emitted, if anything. */
  datatype Closing = Closing(own: Context, depth: nat, emitted: seq<Record>)

  /** The ends of all scopes of a run at the given depth, in the order in which they end. */
  function Closings(ids: Ids, ss: Scopes, ctx: Context, n: nat, depth: nat): seq<Closing> {
    match ss
    case Empty => []
    case InSpan(name, body, rest) =>
      var child := Child(ids, ctx, n);
      var m := Emitted(ids, body, child, n + Draws(ctx)).1;
      Closings(ids, body, child, n + Draws(ctx), depth + 1)
      + [Closing(child, depth, [RecordOf(ids, name, body, ctx, n)])] + Closings(ids, rest, ctx, m, depth)
    case InGuard(c, body, rest) =>
      var m := Emitted(ids, body, c, n).1;
      Closings(ids, body, c, n, depth + 1) + [Closing(c, depth, [])] + Closings(ids, rest, ctx, m, depth)
    case AddingLink(_, _, rest) => Closings(ids, rest, ctx, n, depth)
  }

  function Records(cs: seq<Closing>): seq<Record> {
    if |cs| == 0 then [] else Records(cs[..|cs| - 1]) + cs[|cs| - 1].emitted
  }

  lemma {:induction false} RecordsJoin(a: seq<Closing>, b: seq<Closing>)
    ensures Records(a + b) == Records(a) + Records(b)
    decreases |b|
  {
    if |b| == 0 {
      assert a + b == a;
    } else {
      var front := b[..|b| - 1];
      assert (a + b)[..|a + b| - 1] == a + front;
      RecordsJoin(a, front);
      Joined(Records(a), Records(front), b[|b| - 1].emitted);
    }
  }

  lemma RecordsAround(a: seq<Closing>, c: Closing, b: seq<Closing>)
    ensures Records(a + [c] + b) == Records(a) + c.emitted + Records(b)
  {
    RecordsJoin(a + [c], b);
    RecordsJoin(a, [c]);
    assert [c][..0] == [] && Records([c]) == c.emitted;
  }

  /** The emitted records are those of the closings. */
  lemma {:induction false} ClosingsEmit(ids: Ids, ss: Scopes, ctx: Context, n: nat, depth: nat)
    ensures Records(Closings(ids, ss, ctx, n, depth)) == Emitted(ids, ss, ctx, n).0
  {
    match ss
    case Empty =>
    case InSpan(name, body, rest) =>
      var child, a := Child(ids, ctx, n), n + Draws(ctx);
      var m := Emitted(ids, body, child, a).1;
      ClosingsEmit(ids, body, child, a, depth + 1);
      ClosingsEmit(ids, rest, ctx, m, depth);
      RecordsAround(Closings(ids, body, child, a, depth + 1), Closing(child, depth, [RecordOf(ids, name, body, ctx, n)]),
                    Closings(ids, rest, ctx, m, depth));
    case InGuard(c, body, rest) =>
      var m := Emitted(ids, body, c, n).1;
      ClosingsEmit(ids, body, c, n, depth + 1);
      ClosingsEmit(ids, rest, ctx, m, depth);
      RecordsAround(Closings(ids, body, c, n, depth + 1), Closing(c, depth, []), Closings(ids, rest, ctx, m, depth));
    case AddingLink(_, _, rest) => ClosingsEmit(ids, rest, ctx, n, depth);
  }

  /** Scope j is the innermost one around scope k: the first to end after k of those that are less deep. */
  predicate Innermost(cs: seq<Closing>, k: nat, j: nat) {
    k < j < |cs| && cs[j].depth + 1 == cs[k].depth && forall i | k < i < j :: cs[i].depth >= cs[k].depth
  }

  predicate OpenedIn(c: Closing, ctx: Context) {
    forall r | r in c.emitted :: OpenedUnder(r, ctx)
  }

  /** Scope k was opened directly under the innermost scope around it, or under ctx if there is none at this depth. */
  ghost predicate Nested(cs: seq<Closing>, k: nat, ctx: Context, depth: nat)
    requires k < |cs|
  {
    if cs[k].depth == depth then OpenedIn(cs[k], ctx)
    else cs[k].depth > depth && exists j: nat :: Innermost(cs, k, j) && OpenedIn(cs[k], cs[j].own)
  }

  ghost predicate WellNested(cs: seq<Closing>, ctx: Context, depth: nat) {
    forall k: nat :: k < |cs| ==> Nested(cs, k, ctx, depth)
  }

  /** A scope stays nested when others end before or after it. */
  lemma NestedAmong(before: seq<Closing>, cs: seq<Closing>, after: seq<Closing>, k: nat, ctx: Context, depth: nat)
    requires k < |cs| && Nested(cs, k, ctx, depth)
    ensures Nested(before + cs + after, |before| + k, ctx, depth)
  {
    var all := before + cs + after;
    assert all[|before| + k] == cs[k];
    if cs[k].depth != depth {
      var j: nat :| Innermost(cs, k, j) && OpenedIn(cs[k], cs[j].own);
      assert all[|before| + j] == cs[j];
      forall i | |before| + k < i < |before| + j ensures all[i].depth >= cs[k].depth { assert all[i] == cs[i - |before|]; }
      assert Innermost(all, |before| + k, |before| + j);
    }
  }

  /** A scope inside the body of c is nested in the whole run. */
  lemma NestedInBody(inner: seq<Closing>, c: Closing, after: seq<Closing>, k: nat, ctx: Context)
    requires WellNested(inner, c.own, c.depth + 1) && k < |inner|
    ensures Nested(inner + [c] + after, k, ctx, c.depth)
  {
    var all := inner + [c] + after;
    assert Nested(inner, k, c.own, c.depth + 1);
    assert all[k] == inner[k] && all[|inner|] == c;
    if inner[k].depth == c.depth + 1 {
      forall i | k < i < |inner| ensures all[i].depth >= all[k].depth {
        assert Nested(inner, i, c.own, c.depth + 1) && all[i] == inner[i];
      }
      assert Innermost(all, k, |inner|);
    } else {
      var j: nat :| Innermost(inner, k, j) && OpenedIn(inner[k], inner[j].own);
      assert all[j] == inner[j];
      forall i | k < i < j ensures all[i].depth >= all[k].depth { assert all[i] == inner[i]; }
      assert Innermost(all, k, j);
    }
  }

  lemma ScopeIsNested(inner: seq<Closing>, c: Closing, after: seq<Closing>, ctx: Context)
    requires WellNested(inner, c.own, c.depth + 1) && WellNested(after, ctx, c.depth) && OpenedIn(c, ctx)
    ensures WellNested(inner + [c] + after, ctx, c.depth)
  {
    var all := inner + [c] + after;
    forall k: nat | k < |all| ensures Nested(all, k, ctx, c.depth) {
      if k < |inner| {
        NestedInBody(inner, c, after, k, ctx);
      } else if k == |inner| {
        assert all[k] == c;
      } else {
        assert Nested(after, k - |inner| - 1, ctx, c.depth);
        NestedAmong(inner + [c], after, [], k - |inner| - 1, ctx, c.depth);
        assert inner + [c] + after + [] == all;
      }
    }
  }

  /**
   Every span is a child of the innermost scope around it, span or guard, in that scope's trace; it ends, and so is
   emitted, before that scope does.
   */
  lemma {:induction false} ParentIsInnermost(ids: Ids, ss: Scopes, ctx: Context, n: nat, depth: nat)
    ensures WellNested(Closings(ids, ss, ctx, n, depth), ctx, depth)
  {
    match ss
    case Empty =>
    case InSpan(name, body, rest) =>
      var child, a := Child(ids, ctx, n), n + Draws(ctx);
      var m := Emitted(ids, body, child, a).1;
      ParentIsInnermost(ids, body, child, a, depth + 1);
      ParentIsInnermost(ids, rest, ctx, m, depth);
      ScopeIsNested(Closings(ids, body, child, a, depth + 1), Closing(child, depth, [RecordOf(ids, name, body, ctx, n)]),
                    Closings(ids, rest, ctx, m, depth), ctx);
    case InGuard(c, body, rest) =>
      var m := Emitted(ids, body, c, n).1;
      ParentIsInnermost(ids, body, c, n, depth + 1);
      ParentIsInnermost(ids, rest, ctx, m, depth);
      ScopeIsNested(Closings(ids, body, c, n, depth + 1), Closing(c, depth, []), Closings(ids, rest, ctx, m, depth), ctx);
    case AddingLink(_, _, rest) => ParentIsInnermost(ids, rest, ctx, n, depth);
  }

  /** Different spans carry different ids, if the stream does not repeat. */
  lemma {:induction false} IdsInRange(ids: Ids, ss: Scopes, ctx: Context, n: nat)
    ensures var (rs, m) := Emitted(ids, ss, ctx, n);
            n <= m && forall k | 0 <= k < |rs| :: DrawnFrom(ids, n, m, rs[k].ctx.span)
  {
    match ss
    case Empty =>
    case InSpan(name, body, rest) =>
      var child := Child(ids, ctx, n);
      var (inner, m) := Emitted(ids, body, child, n + Draws(ctx));
      IdsInRange(ids, body, child, n + Draws(ctx));
      IdsInRange(ids, rest, ctx, m);
      assert child.span == ids(n + Draws(ctx) - 1);
    case InGuard(c, body, rest) =>
      var (inner, m) := Emitted(ids, body, c, n);
      IdsInRange(ids, body, c, n);
      IdsInRange(ids, rest, ctx, m);
    case AddingLink(_, _, rest) => IdsInRange(ids, rest, ctx, n);
  }

  ghost predicate DrawnFrom(ids: Ids, n: nat, m: nat, id: nat) {
    exists i :: n <= i < m && ids(i) == id
  }

  predicate NoRepeats(ids: Ids, n: nat, m: nat) {
    forall i, j | n <= i < j < m :: ids(i) != ids(j)
  }

  predicate DistinctSpans(rs: seq<Record>) {
    forall j, k | 0 <= j < k < |rs| :: rs[j].ctx.span != rs[k].ctx.span
  }

  lemma {:induction false} SpansAreDistinct(ids: Ids, ss: Scopes, ctx: Context, n: nat)
    requires NoRepeats(ids, n, Emitted(ids, ss, ctx, n).1)
    ensures DistinctSpans(Emitted(ids, ss, ctx, n).0)
  {
    match ss
    case Empty =>
    case InSpan(name, body, rest) =>
      var child := Child(ids, ctx, n);
      var a := n + Draws(ctx);
      var (inner, m) := Emitted(ids, body, child, a);
      var (after, e) := Emitted(ids, rest, ctx, m);
      IdsInRange(ids, body, child, a);
      IdsInRange(ids, rest, ctx, m);
      SpansAreDistinct(ids, body, child, a);
      SpansAreDistinct(ids, rest, ctx, m);
      assert child.span == ids(a - 1);
      assert DrawnFrom(ids, n, a, child.span);
      var own := RecordOf(ids, name, body, ctx, n);
      Apart(ids, inner, [own], a, m, n, a);
      assert DistinctSpans(inner + [own]);
    case InGuard(c, body, rest) =>
      var (inner, m) := Emitted(ids, body, c, n);
      var (after, e) := Emitted(ids, rest, ctx, m);
      IdsInRange(ids, body, c, n);
      IdsInRange(ids, rest, ctx, m);
      SpansAreDistinct(ids, body, c, n);
      SpansAreDistinct(ids, rest, ctx, m);
      Apart(ids, inner, after, n, m, m, e);
    case AddingLink(_, _, rest) => SpansAreDistinct(ids, rest, ctx, n);
  }

  lemma Apart(ids: Ids, rs: seq<Record>, ts: seq<Record>, n: nat, m: nat, n2: nat, m2: nat)
    requires DistinctSpans(rs) && DistinctSpans(ts) && (m <= n2 || m2 <= n)
    requires NoRepeats(ids, if n < n2 then n else n2, if m < m2 then m2 else m)
    requires forall k | 0 <= k < |rs| :: DrawnFrom(ids, n, m, rs[k].ctx.span)
    requires forall k | 0 <= k < |ts| :: DrawnFrom(ids, n2, m2, ts[k].ctx.span)
    ensures DistinctSpans(rs + ts)
  {
    forall j, k | 0 <= j < |rs| && 0 <= k < |ts| ensures rs[j].ctx.span != ts[k].ctx.span {
      assert DrawnFrom(ids, n, m, rs[j].ctx.span) && DrawnFrom(ids, n2, m2, ts[k].ctx.span);
    }
  }

  // ---- traces ----

  /** The spans of a run that start a trace of their own, those opened where no trace is, in the order of closing. */
  function Roots(ids: Ids, ss: Scopes, ctx: Context, n: nat): seq<Record> {
    match ss
    case Empty => []
    case InSpan(name, body, rest) =>
      var child := Child(ids, ctx, n);
      var m := Emitted(ids, body, child, n + Draws(ctx)).1;
      Roots(ids, body, child, n + Draws(ctx)) + (if ctx.Valid() then [] else [RecordOf(ids, name, body, ctx, n)])
      + Roots(ids, rest, ctx, m)
    case InGuard(c, body, rest) => Roots(ids, body, c, n) + Roots(ids, rest, ctx, Emitted(ids, body, c, n).1)
    case AddingLink(_, _, rest) => Roots(ids, rest, ctx, n)
  }

  predicate DistinctTraces(rs: seq<Record>) {
    forall j, k | 0 <= j < k < |rs| :: !SameTrace(rs[j].ctx, rs[k].ctx)
  }

  /** The records of rs start their traces with ids drawn from n to m. */
  ghost predicate TracesFrom(ids: Ids, rs: seq<Record>, n: nat, m: nat) {
    forall k | 0 <= k < |rs| :: DrawnFrom(ids, n, m, rs[k].ctx.hi)
  }

  lemma TracesFromMore(ids: Ids, rs: seq<Record>, n: nat, m: nat, n2: nat, m2: nat)
    requires TracesFrom(ids, rs, n, m) && n2 <= n && m <= m2
    ensures TracesFrom(ids, rs, n2, m2)
  {
    forall k | 0 <= k < |rs| ensures DrawnFrom(ids, n2, m2, rs[k].ctx.hi) {
      assert DrawnFrom(ids, n, m, rs[k].ctx.hi);
    }
  }

  lemma TracesJoin(ids: Ids, rs: seq<Record>, ts: seq<Record>, n: nat, m: nat, e: nat)
    requires n <= m <= e && NoRepeats(ids, n, e)
    requires DistinctTraces(rs) && TracesFrom(ids, rs, n, m) && DistinctTraces(ts) && TracesFrom(ids, ts, m, e)
    ensures DistinctTraces(rs + ts) && DistinctTraces(ts + rs)
    ensures TracesFrom(ids, rs + ts, n, e) && TracesFrom(ids, ts + rs, n, e)
  {
    TracesFromMore(ids, rs, n, m, n, e);
    TracesFromMore(ids, ts, m, e, n, e);
    forall j, k | 0 <= j < |rs| && 0 <= k < |ts| ensures rs[j].ctx.hi != ts[k].ctx.hi {
      assert DrawnFrom(ids, n, m, rs[j].ctx.hi) && DrawnFrom(ids, m, e, ts[k].ctx.hi);
    }
  }

  lemma RootIsFresh(ids: Ids, name: string, body: Scopes, ctx: Context, n: nat)
    requires !ctx.Valid()
    ensures TracesFrom(ids, [RecordOf(ids, name, body, ctx, n)], n, n + Draws(ctx))
  {
    assert RecordOf(ids, name, body, ctx, n).ctx.hi == ids(n);
  }

  /** Different roots start different traces, if the stream of ids does not repeat. */
  lemma {:induction false} RootsHaveTheirOwnTraces(ids: Ids, ss: Scopes, ctx: Context, n: nat)
    requires NoRepeats(ids, n, Emitted(ids, ss, ctx, n).1)
    ensures n <= Emitted(ids, ss, ctx, n).1
    ensures DistinctTraces(Roots(ids, ss, ctx, n)) && TracesFrom(ids, Roots(ids, ss, ctx, n), n, Emitted(ids, ss, ctx, n).1)
  {
    match ss
    case Empty =>
    case InSpan(name, body, rest) =>
      var child, a := Child(ids, ctx, n), n + Draws(ctx);
      var m := Emitted(ids, body, child, a).1;
      var e := Emitted(ids, rest, ctx, m).1;
      IdsInRange(ids, body, child, a);
      IdsInRange(ids, rest, ctx, m);
      RootsHaveTheirOwnTraces(ids, body, child, a);
      RootsHaveTheirOwnTraces(ids, rest, ctx, m);
      var own := if ctx.Valid() then [] else [RecordOf(ids, name, body, ctx, n)];
      if !ctx.Valid() { RootIsFresh(ids, name, body, ctx, n); }
      TracesJoin(ids, own, Roots(ids, body, child, a), n, a, m);
      TracesJoin(ids, Roots(ids, body, child, a) + own, Roots(ids, rest, ctx, m), n, m, e);
    case InGuard(c, body, rest) =>
      var m := Emitted(ids, body, c, n).1;
      IdsInRange(ids, body, c, n);
      IdsInRange(ids, rest, ctx, m);
      RootsHaveTheirOwnTraces(ids, body, c, n);
      RootsHaveTheirOwnTraces(ids, rest, ctx, m);
      TracesJoin(ids, Roots(ids, body, c, n), Roots(ids, rest, ctx, m), n, m, Emitted(ids, rest, ctx, m).1);
    case AddingLink(_, _, rest) => RootsHaveTheirOwnTraces(ids, rest, ctx, n);
  }

  /** Roots are emitted, with parent 0. */
  lemma {:induction false} RootsAreEmitted(ids: Ids, ss: Scopes, ctx: Context, n: nat, r: Record)
    requires r in Roots(ids, ss, ctx, n)
    ensures r in Emitted(ids, ss, ctx, n).0 && r.parent == 0
  {
    match ss
    case Empty =>
    case InSpan(name, body, rest) =>
      var child, a := Child(ids, ctx, n), n + Draws(ctx);
      var m := Emitted(ids, body, child, a).1;
      if r in Roots(ids, body, child, a) {
        RootsAreEmitted(ids, body, child, a, r);
      } else if r in Roots(ids, rest, ctx, m) {
        RootsAreEmitted(ids, rest, ctx, m, r);
      }
    case InGuard(c, body, rest) =>
      var m := Emitted(ids, body, c, n).1;
      if r in Roots(ids, body, c, n) {
        RootsAreEmitted(ids, body, c, n, r);
      } else {
        RootsAreEmitted(ids, rest, ctx, m, r);
      }
    case AddingLink(_, _, rest) => RootsAreEmitted(ids, rest, ctx, n, r);
  }
}
