// The mip-chain generator: the commands it records, judged by an interpreter that knows the layout
// and the content of every level.
module MipChain {

  function Pow2(k: nat): (p: nat)
    ensures p >= 1
  {
    if k == 0 then 1 else 2 * Pow2(k - 1)
  }

  /** The size of level `i` along one side, by the Vulkan rule. */
  function LevelSize(size: nat, i: nat): nat {
    var s: int := size / Pow2(i);
    if s < 1 then 1 else s
  }

  datatype Extent = Extent(width: nat, height: nat)

  function LevelExtent(base: Extent, i: nat): Extent {
    Extent(LevelSize(base.width, i), LevelSize(base.height, i))
  }

  // ----- the number of levels ---------------------------------------------------------------

  /** floor(log2(n)), exact for the sizes an image can have. */
  function FloorLog2(n: nat): (k: nat)
    requires n >= 1
    ensures Pow2(k) <= n < Pow2(k + 1)
  {
    if n == 1 then 0 else 1 + FloorLog2(n / 2)
  }

  function MipLevels(base: Extent): nat
    requires base.width >= 1 && base.height >= 1
  {
    FloorLog2(if base.width < base.height then base.height else base.width) + 1
  }

  lemma {:induction false} Pow2Grows(i: nat, j: nat)
    requires i <= j
    ensures Pow2(i) <= Pow2(j)
  {
    if i < j { Pow2Grows(i, j - 1); }
  }

  /** The chosen number of levels ends the chain at the first level of a single texel: a level is
      1x1 exactly from the last one on. */
  lemma SingleTexelIff(base: Extent, i: nat)
    requires base.width >= 1 && base.height >= 1
    ensures LevelExtent(base, i) == Extent(1, 1) <==> i >= MipLevels(base) - 1
  {
    var last := MipLevels(base) - 1;
    OneIff(base.width, i);
    OneIff(base.height, i);
    if i >= last {
      Pow2Grows(last + 1, i + 1);
    } else {
      Pow2Grows(i + 1, last);
    }
  }

  lemma OneIff(size: nat, i: nat)
    requires size >= 1
    ensures LevelSize(size, i) == 1 <==> size < Pow2(i + 1)
  {
    var p := Pow2(i);
    assert size == p * (size / p) + size % p;
    if size / p >= 2 {
      MulAtLeast(p, size / p);
    } else if size / p == 1 {
      assert p * 1 == p;
    }
  }

  lemma MulAtLeast(p: nat, q: nat)
    requires q >= 2
    ensures p * q >= 2 * p
  {
  }

  /** The running size: halving and stopping at one is the Vulkan rule. */
  lemma NextLevelSize(size: nat, i: nat)
    requires size >= 1
    ensures LevelSize(size, i + 1) == if LevelSize(size, i) > 1 then LevelSize(size, i) / 2 else 1
  {
    DivTwice(size, Pow2(i));
  }

  lemma DivTwice(n: nat, p: nat)
    requires p >= 1
    ensures n / (2 * p) == (n / p) / 2
  {
    var q, h := n / p, (n / p) / 2;
    assert n == p * q + n % p;
    MulMono(p, 2 * h, q);
    MulMono(p, q + 1, 2 * h + 2);
    TwiceOut(p, h);
    TwiceOut(p, h + 1);
    assert p * (q + 1) == p * q + p;
    DivIs(n, 2 * p, h);
  }

  lemma TwiceOut(p: nat, h: nat)
    ensures (2 * p) * h == p * (2 * h)
  {
  }

  lemma MulMono(p: nat, a: nat, b: nat)
    requires a <= b
    ensures p * a <= p * b
  {
  }

  lemma DivIs(n: nat, d: nat, q: nat)
    requires d >= 1 && d * q <= n < d * (q + 1)
    ensures n / d == q
  {
    var k := n / d;
    assert n == d * k + n % d;
    assert d * (k + 1) == d * k + d;
    if k < q { MulMono(d, k + 1, q); }
    if q < k { MulMono(d, q + 1, k); }
  }

  // ----- commands and their interpreter -------------------------------------------------------

  datatype Layout = TransferDst | TransferSrc | ShaderReadOnly

  datatype Command =
    | Barrier(level: nat, oldLayout: Layout, newLayout: Layout)
    | Blit(srcLevel: nat, srcExtent: Extent, dstLevel: nat, dstExtent: Extent)

  /** Per level: its extent, its layout, and whether it holds texels. */
  datatype Image = Image(extents: seq<Extent>, layouts: seq<Layout>, filled: seq<bool>)

  datatype Outcome = Running(image: Image) | Invalid

  predicate WellFormed(m: Image) { |m.layouts| == |m.filled| == |m.extents| }

  /** A barrier must name the layout the level is in. A blit reads a filled level in the source
      layout, writes a level in the destination layout, and uses their true extents. */
  predicate Legal(m: Image, c: Command)
    requires WellFormed(m)
  {
    match c
    case Barrier(level, oldLayout, _) => level < |m.layouts| && m.layouts[level] == oldLayout
    case Blit(src, srcExtent, dst, dstExtent) =>
      && src < |m.layouts| && dst < |m.layouts| && src != dst
      && m.layouts[src] == TransferSrc && m.filled[src] && srcExtent == m.extents[src]
      && m.layouts[dst] == TransferDst && dstExtent == m.extents[dst]
  }

  function Step(m: Image, c: Command): Outcome
    requires WellFormed(m)
  {
    if !Legal(m, c) then Invalid
    else match c
      case Barrier(level, _, newLayout) => Running(m.(layouts := m.layouts[level := newLayout]))
      case Blit(_, _, dst, _) => Running(m.(filled := m.filled[dst := true]))
  }

  function Execute(m: Image, cs: seq<Command>): (o: Outcome)
    requires WellFormed(m)
    ensures o.Running? ==> WellFormed(o.image)
    decreases |cs|
  {
    if cs == [] then Running(m)
    else match Execute(m, cs[..|cs| - 1])
      case Invalid => Invalid
      case Running(now) => Step(now, cs[|cs| - 1])
  }

  function Extents(base: Extent, levels: nat): (es: seq<Extent>)
    ensures |es| == levels && forall k :: 0 <= k < levels ==> es[k] == LevelExtent(base, k)
  {
    seq(levels, k requires 0 <= k < levels => LevelExtent(base, k))
  }

  /** The first `done` levels are ready for the shader, one more is filled. */
  function Chain(es: seq<Extent>, done: nat): (m: Image)
    ensures WellFormed(m)
  {
    Image(es,
          seq(|es|, k requires 0 <= k < |es| => if k < done then ShaderReadOnly else TransferDst),
          seq(|es|, k requires 0 <= k < |es| => k <= done))
  }

  lemma ExecuteSnoc(m: Image, cs: seq<Command>, c: Command)
    requires WellFormed(m) && Execute(m, cs).Running?
    ensures Execute(m, cs + [c]) == Step(Execute(m, cs).image, c)
  {
    assert (cs + [c])[..|cs|] == cs;
  }

  /** The commands of one pass, from any image in the right state. */
  lemma PassRuns(m: Image, cs: seq<Command>, i: nat, now: Image)
    requires WellFormed(m) && Execute(m, cs) == Running(now) && WellFormed(now) && 1 <= i < |now.layouts|
    requires now.layouts[i - 1] == TransferDst && now.layouts[i] == TransferDst && now.filled[i - 1]
    ensures Execute(m, cs + [Pass(now.extents, i)[0]] + [Pass(now.extents, i)[1]] + [Pass(now.extents, i)[2]]) ==
            Running(now.(layouts := now.layouts[i - 1 := TransferSrc][i - 1 := ShaderReadOnly], filled := now.filled[i := true]))
  {
    var p := Pass(now.extents, i);
    ExecuteSnoc(m, cs, p[0]);
    ExecuteSnoc(m, cs + [p[0]], p[1]);
    ExecuteSnoc(m, cs + [p[0]] + [p[1]], p[2]);
  }

  lemma ChainNext(es: seq<Extent>, i: nat)
    requires 1 <= i < |es|
    ensures var now := Chain(es, i - 1);
            && now.layouts[i - 1 := TransferSrc][i - 1 := ShaderReadOnly] == Chain(es, i).layouts
            && now.filled[i := true] == Chain(es, i).filled
  {
  }

  lemma Three(cs: seq<Command>, p: seq<Command>)
    requires |p| == 3
    ensures cs + p == cs + [p[0]] + [p[1]] + [p[2]]
  {
  }

  /** One pass of the loop: level `i - 1` becomes a source, fills level `i`, and is handed to the
      shader. */
  lemma OnePass(es: seq<Extent>, cs: seq<Command>, i: nat)
    requires 1 <= i < |es|
    requires Execute(Chain(es, 0), cs) == Running(Chain(es, i - 1))
    ensures Execute(Chain(es, 0), cs + Pass(es, i)) == Running(Chain(es, i))
  {
    PassRuns(Chain(es, 0), cs, i, Chain(es, i - 1));
    ChainNext(es, i);
    Three(cs, Pass(es, i));
  }

  function Pass(es: seq<Extent>, i: nat): (p: seq<Command>)
    requires 1 <= i < |es|
    ensures |p| == 3
  {
    [Barrier(i - 1, TransferDst, TransferSrc),
     Blit(i - 1, es[i - 1], i, es[i]),
     Barrier(i - 1, TransferSrc, ShaderReadOnly)]
  }

  /** Everything is filled and ready for the shader. */
  predicate Ready(o: Outcome, levels: nat) {
    && o.Running? && |o.image.layouts| == |o.image.filled| == levels
    && forall k :: 0 <= k < levels ==> o.image.layouts[k] == ShaderReadOnly && o.image.filled[k]
  }

  lemma LastBarrier(es: seq<Extent>, cs: seq<Command>)
    requires |es| >= 1 && Execute(Chain(es, 0), cs) == Running(Chain(es, |es| - 1))
    ensures Ready(Execute(Chain(es, 0), cs + [Barrier(|es| - 1, TransferDst, ShaderReadOnly)]), |es|)
  {
    ExecuteSnoc(Chain(es, 0), cs, Barrier(|es| - 1, TransferDst, ShaderReadOnly));
    LastStep(es);
  }

  lemma LastStep(es: seq<Extent>)
    requires |es| >= 1
    ensures Ready(Step(Chain(es, |es| - 1), Barrier(|es| - 1, TransferDst, ShaderReadOnly)), |es|)
  {
  }

  /** The loop variables: `size` halved once more. */
  function Halved(size: nat): nat { if size > 1 then size / 2 else 1 }

  lemma HalvedExtent(base: Extent, i: nat)
    requires base.width >= 1 && base.height >= 1
    ensures var e := LevelExtent(base, i); LevelExtent(base, i + 1) == Extent(Halved(e.width), Halved(e.height))
    ensures LevelExtent(base, 0) == base
  {
    NextLevelSize(base.width, i);
    NextLevelSize(base.height, i);
    assert Pow2(0) == 1;
  }

  /** The pass that the loop emits from its two variables. */
  lemma OnePassHalved(base: Extent, levels: nat, cs: seq<Command>, i: nat, w: nat, h: nat)
    requires base.width >= 1 && base.height >= 1 && 1 <= i < levels && Extent(w, h) == LevelExtent(base, i - 1)
    requires var es := Extents(base, levels); Execute(Chain(es, 0), cs) == Running(Chain(es, i - 1))
    ensures var es := Extents(base, levels);
            var pass := [Barrier(i - 1, TransferDst, TransferSrc),
                         Blit(i - 1, Extent(w, h), i, Extent(Halved(w), Halved(h))),
                         Barrier(i - 1, TransferSrc, ShaderReadOnly)];
            Execute(Chain(es, 0), cs + pass) == Running(Chain(es, i))
    ensures Extent(Halved(w), Halved(h)) == LevelExtent(base, i)
  {
    HalvedExtent(base, i - 1);
    OnePass(Extents(base, levels), cs, i);
  }

  /** GenerateMipmaps(): every command is legal when it comes, and at the end every level is filled
      and ready for the shader. */
  method GenerateMipmaps(texWidth: nat, texHeight: nat, mipLevels: nat) returns (commands: seq<Command>)
    requires texWidth >= 1 && texHeight >= 1 && mipLevels >= 1
    ensures Ready(Execute(Chain(Extents(Extent(texWidth, texHeight), mipLevels), 0), commands), mipLevels)
    ensures |commands| == 3 * (mipLevels - 1) + 1
  {
    ghost var base := Extent(texWidth, texHeight);
    ghost var es := Extents(base, mipLevels);
    commands := [];
    var mipWidth, mipHeight := texWidth, texHeight;
    HalvedExtent(base, 0);
    for i := 1 to mipLevels
      invariant Execute(Chain(es, 0), commands) == Running(Chain(es, i - 1))
      invariant Extent(mipWidth, mipHeight) == LevelExtent(base, i - 1)
      invariant |commands| == 3 * (i - 1)
    {
      OnePassHalved(base, mipLevels, commands, i, mipWidth, mipHeight);
      commands := commands + [
        Barrier(i - 1, TransferDst, TransferSrc),
        Blit(i - 1, Extent(mipWidth, mipHeight), i, Extent(Halved(mipWidth), Halved(mipHeight))),
        Barrier(i - 1, TransferSrc, ShaderReadOnly)];
      if mipWidth > 1 { mipWidth := mipWidth / 2; }
      if mipHeight > 1 { mipHeight := mipHeight / 2; }
    }
    LastBarrier(es, commands);
    commands := commands + [Barrier(mipLevels - 1, TransferDst, ShaderReadOnly)];
  }
}
