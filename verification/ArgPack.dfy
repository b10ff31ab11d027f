/**
 The deferred-format argument pack of include/xmbase/telemetry/binding.hpp: at most 8 arguments in 160 bytes, copied
 as their object representation and decoded later by the formatters.
 */
module ArgPack {

  const MAX_ARGS: nat := 8
  const BUF_BYTES: nat := 160
  const TWO64: nat := 0x1_0000_0000_0000_0000

  type Byte = x: int | 0 <= x < 256

  /** A C string's character. */
  type Char = c: char | c as int < 256

  datatype ArgType = KBool | KI64 | KU64 | KF64 | KStr

  /** A packed argument. The double is carried as its 64 bits. */
  datatype Arg = Bool(b: bool) | I64(i: int) | U64(u: nat) | F64(bits: nat) | Str(s: seq<Char>)

  /** What the caller passes. */
  datatype Input = Given(arg: Arg) | NullText

  function Text(x: Input): Arg {
    if x.NullText? then Str("(null)") else x.arg
  }

  predicate InRange(a: Arg) {
    match a
    case I64(i) => -(TWO64 / 2) <= i < TWO64 / 2
    case U64(u) => u < TWO64
    case F64(bits) => bits < TWO64
    case _ => true
  }

  // ---- object representations ----

  /** n as k bytes, least significant first. */
  function Bytes(n: nat, k: nat): (s: seq<Byte>)
    ensures |s| == k
  {
    if k == 0 then [] else [n % 256] + Bytes(n / 256, k - 1)
  }

  function Value(s: seq<Byte>): nat {
    if |s| == 0 then 0 else s[0] + 256 * Value(s[1..])
  }

  function Power256(k: nat): nat {
    if k == 0 then 1 else 256 * Power256(k - 1)
  }

  lemma {:induction false} ValueOfBytes(n: nat, k: nat)
    requires n < Power256(k)
    ensures Value(Bytes(n, k)) == n
  {
    if k > 0 {
      ValueOfBytes(n / 256, k - 1);
      assert Bytes(n, k)[1..] == Bytes(n / 256, k - 1);
    }
  }

  lemma Words(n: nat)
    requires n < TWO64
    ensures Value(Bytes(n, 8)) == n
  {
    assert Power256(4) == 0x1_0000_0000 && Power256(8) == 0x1_0000_0000 * Power256(4) == TWO64;
    ValueOfBytes(n, 8);
  }

  /** Two's complement. */
  function Wrap(i: int): nat {
    i % TWO64
  }

  function Unwrap(n: nat): int {
    if n < TWO64 / 2 then n else n - TWO64
  }

  function TypeOf(a: Arg): ArgType {
    match a
    case Bool(_) => KBool
    case I64(_) => KI64
    case U64(_) => KU64
    case F64(_) => KF64
    case Str(_) => KStr
  }

  function Encode(a: Arg): (s: seq<Byte>)
    ensures |s| == Width(TypeOf(a), if a.Str? then |a.s| else 0)
  {
    match a
    case Bool(b) => [if b then 1 else 0]
    case I64(i) => Bytes(Wrap(i), 8)
    case U64(u) => Bytes(u, 8)
    case F64(bits) => Bytes(bits, 8)
    case Str(s) => seq(|s|, k requires 0 <= k < |s| => s[k] as int)
  }

  function Decode(t: ArgType, s: seq<Byte>): Arg {
    match t
    case KBool => Bool(|s| > 0 && s[0] != 0)
    case KI64 => I64(Unwrap(Value(s)))
    case KU64 => U64(Value(s))
    case KF64 => F64(Value(s))
    case KStr => Str(seq(|s|, k requires 0 <= k < |s| => s[k] as char))
  }

  /** Reading back what was copied gives the argument. */
  lemma DecodeEncode(a: Arg)
    requires InRange(a)
    ensures Decode(TypeOf(a), Encode(a)) == a
  {
    match a
    case I64(i) => Words(Wrap(i));
    case U64(u) => Words(u);
    case F64(bits) => Words(bits);
    case _ =>
  }

  // ---- what the pack keeps ----

  function Width(t: ArgType, len: nat): nat {
    match t
    case KBool => 1
    case KStr => len
    case _ => 8
  }

  function Size(a: Arg): nat {
    Width(TypeOf(a), if a.Str? then |a.s| else 0)
  }

  function Used(args: seq<Arg>): nat {
    if |args| == 0 then 0 else Used(args[..|args| - 1]) + Size(args[|args| - 1])
  }

  /** What is kept of a when `used` bytes are taken: of a string, the longest prefix that fits, of at most 255. */
  function Fitted(a: Arg, used: nat): Arg {
    if a.Str? then
      var n := if used + |a.s| <= BUF_BYTES then |a.s| else if used <= BUF_BYTES then BUF_BYTES - used else 0;
      Str(a.s[..if n > 255 then 255 else n])
    else a
  }

  /** The increasing places src have exactly n members before i, and i is none of them. */
  predicate Between(src: seq<nat>, n: nat, i: nat) {
    n <= |src| && (forall j | 0 <= j < n :: src[j] < i) && (forall j | n <= j < |src| :: i < src[j])
  }

  predicate Increasing(src: seq<nat>) {
    forall j, k | 0 <= j < k < |src| :: src[j] < src[k]
  }

  predicate KeptFrom(inputs: seq<Input>, kept: seq<Arg>, src: seq<nat>, j: nat)
    requires j < |kept| == |src|
  {
    src[j] < |inputs| && kept[j] == Fitted(Text(inputs[src[j]]), Used(kept[..j]))
  }

  ghost predicate DroppedForRoom(inputs: seq<Input>, kept: seq<Arg>, src: seq<nat>, i: nat)
    requires i < |inputs| && |kept| == |src|
  {
    forall n | Between(src, n, i) :: NoRoom(Text(inputs[i]), kept, n)
  }

  /** kept holds the arguments of inputs at the increasing places src; every other one had no room when its turn came. */
  ghost predicate Keeps(inputs: seq<Input>, kept: seq<Arg>, src: seq<nat>) {
    && |src| == |kept| <= MAX_ARGS && Used(kept) <= BUF_BYTES && Increasing(src)
    && (forall j | 0 <= j < |src| :: KeptFrom(inputs, kept, src, j))
    && (forall i | 0 <= i < |inputs| :: DroppedForRoom(inputs, kept, src, i))
  }

  /** After the first n kept arguments, a has no room: all places are taken, or it is no string and too large. */
  predicate NoRoom(a: Arg, kept: seq<Arg>, n: nat)
    requires n <= |kept|
  {
    n == MAX_ARGS || (!a.Str? && Used(kept[..n]) + Size(a) > BUF_BYTES)
  }

  /** One more argument: dropped, or kept as far as it fits. */
  function Packed(kept: seq<Arg>, a: Arg): seq<Arg> {
    if |kept| >= MAX_ARGS || (!a.Str? && Used(kept) + Size(a) > BUF_BYTES) then kept
    else kept + [Fitted(a, Used(kept))]
  }

  /** What is packed never exceeds the buffer. */
  lemma PackedFits(kept: seq<Arg>, a: Arg)
    requires |kept| <= MAX_ARGS && Used(kept) <= BUF_BYTES
    ensures |Packed(kept, a)| <= MAX_ARGS && Used(Packed(kept, a)) <= BUF_BYTES
  {
    var b := Fitted(a, Used(kept));
    assert (kept + [b])[..|kept|] == kept;
  }

  predicate Below(src: seq<nat>, j: nat, n: nat) {
    j < |src| ==> src[j] < n
  }

  lemma DropNext(inputs: seq<Input>, kept: seq<Arg>, src: seq<nat>, n: nat)
    requires n < |inputs| && Keeps(inputs[..n], kept, src)
    requires |kept| >= MAX_ARGS || NoRoom(Text(inputs[n]), kept, |kept|)
    ensures Keeps(inputs[..n + 1], kept, src)
  {
    var more := inputs[..n + 1];
    forall j | 0 <= j < |src| ensures KeptFrom(more, kept, src, j) {
      assert KeptFrom(inputs[..n], kept, src, j);
    }
    forall i | 0 <= i < n + 1 ensures DroppedForRoom(more, kept, src, i) {
      if i < n {
        assert DroppedForRoom(inputs[..n], kept, src, i);
      } else {
        forall j: nat ensures Below(src, j, n) { assert j < |src| ==> KeptFrom(inputs[..n], kept, src, j); }
        assert kept[..|kept|] == kept;
        forall m: nat | Between(src, m, n) ensures m == |src| {
          assert Below(src, m, n);
        }
      }
    }
  }

  lemma KeepNext(inputs: seq<Input>, kept: seq<Arg>, src: seq<nat>, n: nat)
    requires n < |inputs| && Keeps(inputs[..n], kept, src)
    requires |kept| < MAX_ARGS && Used(kept + [Fitted(Text(inputs[n]), Used(kept))]) <= BUF_BYTES
    ensures Keeps(inputs[..n + 1], kept + [Fitted(Text(inputs[n]), Used(kept))], src + [n])
  {
    var more := inputs[..n + 1];
    var kept2, src2 := kept + [Fitted(Text(inputs[n]), Used(kept))], src + [n];
    assert kept2[..|kept|] == kept;
    forall j | 0 <= j < |src2| ensures (j < |src| ==> src2[j] < n) && KeptFrom(more, kept2, src2, j) {
      if j < |kept| {
        assert KeptFrom(inputs[..n], kept, src, j);
        assert kept2[..j] == kept[..j];
      }
    }
    assert Increasing(src2);
    forall i | 0 <= i < n + 1 ensures DroppedForRoom(more, kept2, src2, i) {
      forall m: nat | Between(src2, m, i) ensures NoRoom(Text(inputs[i]), kept2, m) {
        assert src2[|src|] == n;
        assert Between(src, m, i) by {
          forall j | 0 <= j < |src| ensures src[j] == src2[j] {}
        }
        assert DroppedForRoom(inputs[..n], kept, src, i);
        assert kept2[..m] == kept[..m];
      }
    }
  }

  /** Packing one more input extends what is kept, or shows that there was no room. */
  lemma KeepsNext(inputs: seq<Input>, kept: seq<Arg>, src: seq<nat>, n: nat) returns (src2: seq<nat>)
    requires n < |inputs| && Keeps(inputs[..n], kept, src)
    ensures Keeps(inputs[..n + 1], Packed(kept, Text(inputs[n])), src2)
  {
    PackedFits(kept, Text(inputs[n]));
    assert kept[..|kept|] == kept;
    if Packed(kept, Text(inputs[n])) == kept {
      src2 := src;
      DropNext(inputs, kept, src, n);
    } else {
      src2 := src + [n];
      KeepNext(inputs, kept, src, n);
    }
  }

  lemma {:induction false} UsedGrows(args: seq<Arg>, n: nat)
    requires n <= |args|
    ensures Used(args[..n]) <= Used(args)
  {
    if n < |args| {
      UsedGrows(args[..|args| - 1], n);
      assert args[..|args| - 1][..n] == args[..n];
    } else {
      assert args[..n] == args;
    }
  }

  /** A kept argument had room. */
  lemma KeptHadRoom(inputs: seq<Input>, kept: seq<Arg>, src: seq<nat>, j: nat)
    requires Keeps(inputs, kept, src) && j < |kept|
    ensures src[j] < |inputs| && !NoRoom(Text(inputs[src[j]]), kept, j)
  {
    assert KeptFrom(inputs, kept, src, j);
    UsedGrows(kept, j + 1);
    assert kept[..j + 1][..j] == kept[..j];
  }

  /** If kept goes on after n common arguments, kept2 goes on with the same one. */
  lemma SameNext(inputs: seq<Input>, kept: seq<Arg>, src: seq<nat>, kept2: seq<Arg>, src2: seq<nat>, n: nat)
    requires Keeps(inputs, kept, src) && Keeps(inputs, kept2, src2)
    requires n < |kept| && n <= |kept2| && kept[..n] == kept2[..n] && src[..n] == src2[..n]
    ensures n < |kept2| && src2[n] <= src[n]
  {
    var i := src[n];
    KeptHadRoom(inputs, kept, src, n);
    assert DroppedForRoom(inputs, kept2, src2, i);
    if n == |kept2| || src[n] < src2[n] {
      forall j | 0 <= j < n ensures src2[j] < i { assert src[..n][j] == src2[..n][j]; }
      assert Between(src2, n, i);
    }
  }

  lemma {:induction false} SamePrefix(inputs: seq<Input>, kept: seq<Arg>, src: seq<nat>, kept2: seq<Arg>, src2: seq<nat>, n: nat)
    requires Keeps(inputs, kept, src) && Keeps(inputs, kept2, src2)
    requires n <= |kept| && n <= |kept2|
    ensures kept[..n] == kept2[..n] && src[..n] == src2[..n]
  {
    if n > 0 {
      SamePrefix(inputs, kept, src, kept2, src2, n - 1);
      SameNext(inputs, kept, src, kept2, src2, n - 1);
      SameNext(inputs, kept2, src2, kept, src, n - 1);
      assert KeptFrom(inputs, kept, src, n - 1) && KeptFrom(inputs, kept2, src2, n - 1);
      assert kept[..n] == kept[..n - 1] + [kept[n - 1]] && kept2[..n] == kept2[..n - 1] + [kept2[n - 1]];
      assert src[..n] == src[..n - 1] + [src[n - 1]] && src2[..n] == src2[..n - 1] + [src2[n - 1]];
    }
  }

  lemma KeepsIsUnique(inputs: seq<Input>, kept: seq<Arg>, src: seq<nat>, kept2: seq<Arg>, src2: seq<nat>)
    requires Keeps(inputs, kept, src) && Keeps(inputs, kept2, src2)
    ensures kept == kept2 && src == src2
  {
    var n := if |kept| < |kept2| then |kept| else |kept2|;
    SamePrefix(inputs, kept, src, kept2, src2, n);
    if |kept| < |kept2| {
      SameNext(inputs, kept2, src2, kept, src, n);
    } else if |kept2| < |kept| {
      SameNext(inputs, kept, src, kept2, src2, n);
    }
    assert kept[..n] == kept && kept2[..n] == kept2 && src[..n] == src && src2[..n] == src2;
  }

  // ---- what that means for the caller ----

  /** kept is all of s, or as much of it as the 160 bytes or the 255 of the length field admit; used: bytes then taken. */
  predicate LongestFit(kept: seq<Char>, s: seq<Char>, used: nat) {
    kept <= s && |kept| <= 255 && used <= 160 && (kept == s || used == 160 || |kept| == 255)
  }

  /** kept[j] is what the caller passed; of a string, its longest prefix that fits; of a null string, "(null)". */
  predicate AsPassed(x: Input, kept: seq<Arg>, j: nat)
    requires j < |kept|
  {
    match x
    case NullText => kept[j].Str? && LongestFit(kept[j].s, "(null)", Used(kept[..j + 1]))
    case Given(Str(s)) => kept[j].Str? && LongestFit(kept[j].s, s, Used(kept[..j + 1]))
    case Given(a) => kept[j] == a
  }

  /** An argument that is not among the first n kept ones is missing: 8 are kept, or it is no string and too large. */
  predicate Missing(x: Input, kept: seq<Arg>, n: nat)
    requires n <= |kept|
  {
    n == 8 ||
    match x
    case Given(Bool(_)) => Used(kept[..n]) + 1 > 160
    case Given(a) => !a.Str? && Used(kept[..n]) + 8 > 160
    case NullText => false
  }

  /** At most 8 arguments in at most 160 bytes, in order, each as passed; the others had no room in their turn. */
  ghost predicate Selects(inputs: seq<Input>, kept: seq<Arg>, src: seq<nat>) {
    && |src| == |kept| <= 8 && Used(kept) <= 160 && Increasing(src)
    && (forall j | 0 <= j < |src| :: src[j] < |inputs| && AsPassed(inputs[src[j]], kept, j))
    && (forall i, n | 0 <= i < |inputs| && Between(src, n, i) :: Missing(inputs[i], kept, n))
  }

  lemma FittedIsLongest(s: seq<Char>, used: nat)
    requires used <= BUF_BYTES
    ensures Fitted(Str(s), used).Str? && LongestFit(Fitted(Str(s), used).s, s, used + |Fitted(Str(s), used).s|)
  {
  }

  lemma KeptAsPassed(inputs: seq<Input>, kept: seq<Arg>, src: seq<nat>, j: nat)
    requires Keeps(inputs, kept, src) && j < |kept|
    ensures src[j] < |inputs| && AsPassed(inputs[src[j]], kept, j)
  {
    assert KeptFrom(inputs, kept, src, j);
    UsedGrows(kept, j);
    assert kept[..j + 1] == kept[..j] + [kept[j]];
    UsedAppends(kept[..j], kept[j]);
    var a := Text(inputs[src[j]]);
    if a.Str? { FittedIsLongest(a.s, Used(kept[..j])); }
  }

  lemma AsPassedKept(inputs: seq<Input>, kept: seq<Arg>, src: seq<nat>, j: nat)
    requires Selects(inputs, kept, src) && j < |kept|
    ensures KeptFrom(inputs, kept, src, j)
  {
    assert AsPassed(inputs[src[j]], kept, j);
    UsedGrows(kept, j + 1);
    assert kept[..j + 1] == kept[..j] + [kept[j]];
    UsedAppends(kept[..j], kept[j]);
  }

  lemma SelectsKeeps(inputs: seq<Input>, kept: seq<Arg>, src: seq<nat>)
    requires Selects(inputs, kept, src)
    ensures Keeps(inputs, kept, src)
  {
    forall j | 0 <= j < |src| ensures KeptFrom(inputs, kept, src, j) {
      AsPassedKept(inputs, kept, src, j);
    }
    forall i | 0 <= i < |inputs| ensures DroppedForRoom(inputs, kept, src, i) {
      forall n | Between(src, n, i) ensures NoRoom(Text(inputs[i]), kept, n) {
        assert Missing(inputs[i], kept, n);
      }
    }
  }

  /** The selection leaves no choice: inputs determine what is kept, and from where. */
  lemma SelectionIsUnique(inputs: seq<Input>, kept: seq<Arg>, src: seq<nat>, kept2: seq<Arg>, src2: seq<nat>)
    requires Selects(inputs, kept, src) && Selects(inputs, kept2, src2)
    ensures kept == kept2 && src == src2
  {
    SelectsKeeps(inputs, kept, src);
    SelectsKeeps(inputs, kept2, src2);
    KeepsIsUnique(inputs, kept, src, kept2, src2);
  }

  /** The selection, said without the packing rule. */
  lemma KeepsSelects(inputs: seq<Input>, kept: seq<Arg>, src: seq<nat>)
    requires Keeps(inputs, kept, src)
    ensures Selects(inputs, kept, src)
  {
    forall j | 0 <= j < |src| ensures src[j] < |inputs| && AsPassed(inputs[src[j]], kept, j) {
      KeptAsPassed(inputs, kept, src, j);
    }
    forall i, n | 0 <= i < |inputs| && Between(src, n, i) ensures Missing(inputs[i], kept, n) {
      assert DroppedForRoom(inputs, kept, src, i);
      assert NoRoom(Text(inputs[i]), kept, n);
    }
  }

  // ---- the pack ----

  /** Where slice n starts when the slices are contiguous. */
  function End(types: seq<ArgType>, lens: seq<nat>, n: nat): nat
    requires n <= |types| == |lens|
  {
    if n == 0 then 0 else End(types, lens, n - 1) + Width(types[n - 1], lens[n - 1])
  }

  /** The first n arguments, read back from their slices. */
  function ReadBack(types: seq<ArgType>, lens: seq<nat>, buf: seq<Byte>, n: nat): (s: seq<Arg>)
    requires n <= |types| == |lens| && End(types, lens, n) <= |buf|
    ensures |s| == n
  {
    if n == 0 then []
    else
      ReadBack(types, lens, buf, n - 1)
      + [Decode(types[n - 1], buf[End(types, lens, n - 1)..End(types, lens, n)])]
  }

  lemma {:induction false} SameEnd(types: seq<ArgType>, lens: seq<nat>, types2: seq<ArgType>, lens2: seq<nat>, n: nat)
    requires n <= |types| == |lens| && n <= |types2| == |lens2|
    requires types[..n] == types2[..n] && lens[..n] == lens2[..n]
    ensures End(types, lens, n) == End(types2, lens2, n)
  {
    if n > 0 {
      assert types[..n][n - 1] == types2[..n][n - 1] && lens[..n][n - 1] == lens2[..n][n - 1];
      assert types[..n - 1] == types[..n][..n - 1] && types2[..n - 1] == types2[..n][..n - 1];
      assert lens[..n - 1] == lens[..n][..n - 1] && lens2[..n - 1] == lens2[..n][..n - 1];
      SameEnd(types, lens, types2, lens2, n - 1);
    }
  }

  lemma {:induction false} SameReadBack(types: seq<ArgType>, lens: seq<nat>, buf: seq<Byte>,
                                        types2: seq<ArgType>, lens2: seq<nat>, buf2: seq<Byte>, n: nat)
    requires n <= |types| == |lens| && n <= |types2| == |lens2| && |buf| == |buf2|
    requires types[..n] == types2[..n] && lens[..n] == lens2[..n]
    requires End(types, lens, n) <= |buf| && buf[..End(types, lens, n)] == buf2[..End(types, lens, n)]
    ensures End(types, lens, n) == End(types2, lens2, n)
    ensures ReadBack(types, lens, buf, n) == ReadBack(types2, lens2, buf2, n)
  {
    SameEnd(types, lens, types2, lens2, n);
    if n > 0 {
      assert types[..n][n - 1] == types2[..n][n - 1] && lens[..n][n - 1] == lens2[..n][n - 1];
      assert types[..n - 1] == types[..n][..n - 1] && types2[..n - 1] == types2[..n][..n - 1];
      assert lens[..n - 1] == lens[..n][..n - 1] && lens2[..n - 1] == lens2[..n][..n - 1];
      var e, f := End(types, lens, n - 1), End(types, lens, n);
      assert buf[..e] == buf[..f][..e] && buf2[..e] == buf2[..f][..e];
      assert buf[e..f] == buf[..f][e..] && buf2[e..f] == buf2[..f][e..];
      SameReadBack(types, lens, buf, types2, lens2, buf2, n - 1);
    }
  }

  lemma {:induction false} ReadBackAt(types: seq<ArgType>, lens: seq<nat>, buf: seq<Byte>, n: nat, i: nat)
    requires i < n <= |types| == |lens| && End(types, lens, n) <= |buf|
    ensures End(types, lens, i + 1) <= End(types, lens, n)
    ensures ReadBack(types, lens, buf, n)[i] == Decode(types[i], buf[End(types, lens, i)..End(types, lens, i + 1)])
  {
    if i < n - 1 { ReadBackAt(types, lens, buf, n - 1, i); }
  }

  lemma {:induction false} ValueBelow(s: seq<Byte>)
    ensures Value(s) < Power256(|s|)
  {
    if |s| > 0 { ValueBelow(s[1..]); }
  }

  lemma DecodeInRange(t: ArgType, s: seq<Byte>, len: nat)
    requires |s| == Width(t, len)
    ensures InRange(Decode(t, s))
  {
    if |s| == 8 {
      ValueBelow(s);
      assert Power256(4) == 0x1_0000_0000 && Power256(8) == 0x1_0000_0000 * Power256(4) == TWO64;
    }
  }

  predicate AllInRange(args: seq<Arg>) {
    forall i | 0 <= i < |args| :: InRange(args[i])
  }

  /** Whatever a pack holds reads back as values of their C++ types. */
  lemma {:induction false} ReadBackInRange(types: seq<ArgType>, lens: seq<nat>, buf: seq<Byte>, n: nat)
    requires n <= |types| == |lens| && End(types, lens, n) <= |buf|
    ensures AllInRange(ReadBack(types, lens, buf, n))
  {
    if n > 0 {
      ReadBackInRange(types, lens, buf, n - 1);
      DecodeInRange(types[n - 1], buf[End(types, lens, n - 1)..End(types, lens, n)], lens[n - 1]);
    }
  }

  function Spliced(buf: seq<Byte>, u: nat, bytes: seq<Byte>): (s: seq<Byte>)
    requires u + |bytes| <= |buf|
    ensures |s| == |buf|
  {
    buf[..u] + bytes + buf[u + |bytes|..]
  }

  lemma Appended(types: seq<ArgType>, lens: seq<nat>, buf: seq<Byte>, n: nat, t: ArgType, len: nat, bytes: seq<Byte>)
    requires n < |types| == |lens| && |bytes| == Width(t, len) && End(types, lens, n) + |bytes| <= |buf|
    ensures var (ts, ls, bs) := (types[n := t], lens[n := len], Spliced(buf, End(types, lens, n), bytes));
            && (forall i | 0 <= i <= n :: End(ts, ls, i) == End(types, lens, i))
            && End(ts, ls, n + 1) == End(types, lens, n) + |bytes|
            && ReadBack(ts, ls, bs, n + 1) == ReadBack(types, lens, buf, n) + [Decode(t, bytes)]
  {
    var u := End(types, lens, n);
    var (ts, ls, bs) := (types[n := t], lens[n := len], Spliced(buf, u, bytes));
    forall i | 0 <= i <= n ensures End(ts, ls, i) == End(types, lens, i) {
      SameEnd(ts, ls, types, lens, i);
    }
    assert buf[..u] == bs[..u] && bs[u..u + |bytes|] == bytes;
    SameReadBack(types, lens, buf, ts, ls, bs, n);
  }

  class Pack {
    var count: nat
    const types: array<ArgType>
    const offsets: array<nat>
    const lens: array<nat>
    var used: nat
    const buf: array<Byte>

    /** The slices are contiguous, in order and inside the buffer. */
    ghost predicate Valid()
      reads this, types, offsets, lens, buf
    {
      && types.Length == offsets.Length == lens.Length == MAX_ARGS && buf.Length == BUF_BYTES
      && offsets != lens
      && count <= MAX_ARGS
      && used == End(types[..], lens[..], count) <= BUF_BYTES
      && (forall i | 0 <= i < count :: lens[i] <= 255 && offsets[i] == End(types[..], lens[..], i))
    }

    /** What a formatter reads back. */
    ghost function Args(): (s: seq<Arg>)
      requires Valid()
      reads this, types, offsets, lens, buf
      ensures |s| == count
    {
      ReadBack(types[..], lens[..], buf[..], count)
    }

    constructor ()
      ensures Valid() && Args() == [] && used == 0
      ensures fresh(types) && fresh(offsets) && fresh(lens) && fresh(buf)
    {
      count, used := 0, 0;
      types := new ArgType[MAX_ARGS](i => KBool);
      offsets := new nat[MAX_ARGS](i => 0);
      lens := new nat[MAX_ARGS](i => 0);
      buf := new Byte[BUF_BYTES](i => 0);
    }

    /** The memcpy of PutRaw. */
    method CopyIn(bytes: seq<Byte>)
      requires used + |bytes| <= buf.Length
      modifies buf
      ensures buf[..] == Spliced(old(buf[..]), used, bytes)
    {
      forall k | 0 <= k < |bytes| { buf[used + k] := bytes[k]; }
    }

    /** Copies one argument in, or changes nothing. */
    method PutRaw(t: ArgType, bytes: seq<Byte>, displayLen: nat) returns (ok: bool)
      requires Valid() && |bytes| == Width(t, displayLen) && displayLen <= 255
      modifies this, types, offsets, lens, buf
      ensures Valid()
      ensures ok <==> old(count) < MAX_ARGS && old(used) + |bytes| <= BUF_BYTES
      ensures Args() == if ok then old(Args()) + [Decode(t, bytes)] else old(Args())
      ensures used == if ok then old(used) + |bytes| else old(used)
    {
      if count >= MAX_ARGS || used + |bytes| > BUF_BYTES {
        return false;
      }
      ghost var ts, ls, bs := types[..], lens[..], buf[..];
      Appended(ts, ls, bs, count, t, displayLen, bytes);
      CopyIn(bytes);
      types[count] := t;
      offsets[count] := used;
      lens[count] := displayLen;
      used := used + |bytes|;
      count := count + 1;
      assert types[..] == ts[count - 1 := t] && lens[..] == ls[count - 1 := displayLen];
      ok := true;
    }
  
    lemma ArgsInRange()
      requires Valid()
      ensures AllInRange(Args())
    {
      ReadBackInRange(types[..], lens[..], buf[..], count);
    }

    /** How a formatter reads argument i: from its recorded type, offset and length. */
    method Load(i: nat) returns (a: Arg)
      requires Valid() && i < count
      ensures a == Args()[i]
    {
      ReadBackAt(types[..], lens[..], buf[..], count, i);
      var n := Width(types[i], lens[i]);
      a := Decode(types[i], buf[offsets[i]..offsets[i] + n]);
    }

    /** Long strings are cut rather than dropped. */
    method PackStr(s: seq<Char>)
      requires Valid()
      modifies this, types, offsets, lens, buf
      ensures Valid() && Args() == Packed(old(Args()), Str(s))
      ensures old(count) < 8 ==> |Args()| == |old(Args())| + 1 && Args()[old(count)].Str?
                                 && LongestFit(Args()[old(count)].s, s, used)
    {
      UsedIsEnd(types[..], lens[..], buf[..], count);
      FittedIsLongest(s, used);
      var n := |s|;
      if used + n > BUF_BYTES { n := BUF_BYTES - used; }
      if n > 255 { n := 255; }
      DecodeEncode(Str(s[..n]));
      var _ := PutRaw(KStr, Encode(Str(s[..n])), n);
    }

    /** The overload for each accepted argument type. */
    method PackOne(x: Input)
      requires Valid() && InRange(Text(x))
      modifies this, types, offsets, lens, buf
      ensures Valid() && Args() == Packed(old(Args()), Text(x))
    {
      match x
      case NullText => PackStr("(null)");
      case Given(a) =>
        if a.Str? {
          PackStr(a.s);
        } else {
          UsedIsEnd(types[..], lens[..], buf[..], count);
          DecodeEncode(a);
          var _ := PutRaw(TypeOf(a), Encode(a), 0);
        }
    }
  }

  lemma SizeOfDecode(t: ArgType, s: seq<Byte>, len: nat)
    requires |s| == Width(t, len)
    ensures Size(Decode(t, s)) == |s|
  {
  }

  lemma UsedAppends(args: seq<Arg>, a: Arg)
    ensures Used(args + [a]) == Used(args) + Size(a)
  {
    assert (args + [a])[..|args|] == args;
  }

  lemma {:induction false} UsedIsEnd(types: seq<ArgType>, lens: seq<nat>, buf: seq<Byte>, n: nat)
    requires n <= |types| == |lens| && End(types, lens, n) <= |buf|
    ensures Used(ReadBack(types, lens, buf, n)) == End(types, lens, n)
  {
    if n > 0 {
      UsedIsEnd(types, lens, buf, n - 1);
      var slice := buf[End(types, lens, n - 1)..End(types, lens, n)];
      SizeOfDecode(types[n - 1], slice, lens[n - 1]);
      UsedAppends(ReadBack(types, lens, buf, n - 1), Decode(types[n - 1], slice));
    }
  }

  /**
   PackArgs: an in-order selection of at most 8 arguments in at most 160 bytes. Each reads back as what was
   passed, or as the longest prefix of a string that fits; whatever is missing had no room in its turn.
   */
  method PackArgs(inputs: seq<Input>) returns (p: Pack, ghost src: seq<nat>)
    requires forall i | 0 <= i < |inputs| :: InRange(Text(inputs[i]))
    ensures fresh(p) && p.Valid() && Selects(inputs, p.Args(), src) && Keeps(inputs, p.Args(), src)
  {
    p := new Pack();
    src := [];
    for i := 0 to |inputs|
      invariant p.Valid() && fresh(p) && fresh(p.types) && fresh(p.offsets) && fresh(p.lens) && fresh(p.buf)
      invariant Keeps(inputs[..i], p.Args(), src)
    {
      src := KeepsNext(inputs, p.Args(), src, i);
      p.PackOne(inputs[i]);
    }
    assert inputs[..|inputs|] == inputs;
    KeepsSelects(inputs, p.Args(), src);
  }
}
