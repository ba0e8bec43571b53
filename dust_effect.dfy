/**
  The "dust" dissolve effect layer: a list of dissolving items, each with a
  simulation phase and a lazily allocated particle buffer, advanced once per
  display-link tick and dropped when its phase reaches 4.0; plus the integer
  bookkeeping of the render pass (particle counts, buffer sizes, the stride-5
  record layout, threadgroup counts and the 3x render target).

  GPU objects are opaque handles. The texture loader, the buffer pool and the
  random number generator are oracles passed in as parameters; the shared
  display-link driver is a small class that hands out subscription handles.
*/
module DustEffect {
  import opened Wrappers

  /** An item whose phase reaches this value is finished and removed. */
  const FinishedPhase: real := 4.0
  /** Bytes per Float in the particle buffer. */
  const FloatSize: nat := 4
  /** Floats per particle record: offset x, offset y, velocity x, velocity y, weight. */
  const RecordStride: nat := 5
  /** Threads per compute threadgroup. */
  const ThreadgroupWidth: nat := 32
  /** The render target is this many times the layer's bounds in each dimension. */
  const RenderScale: real := 3.0

  type Extent = r: real | 0.0 <= r

  /** A rectangle as CoreGraphics reports it: width and height are standardized (never negative). */
  datatype Rect = Rect(x: real, y: real, width: Extent, height: Extent)
  {
    /** `CGRect.isEmpty`: a rectangle of zero width or zero height. */
    predicate IsEmpty() { width == 0.0 || height == 0.0 }
    function MaxY(): real { y + height }
  }

  /** Opaque GPU handles. */
  datatype Texture = Texture(id: nat)
  datatype Library = Library(id: nat)
  /** A subscription handle of the shared display-link driver. */
  datatype Link = Link(id: nat)

  /** Swift's `Int(_:)` on a non-negative CGFloat: truncation toward zero. */
  function Truncate(x: Extent): (n: nat)
    ensures n as real <= x < n as real + 1.0
  {
    x.Floor
  }

  /** Particle grid of an item: one particle per whole point of its frame. */
  function Columns(frame: Rect): nat { Truncate(frame.width) }
  function Rows(frame: Rect): nat { Truncate(frame.height) }

  /** An item less than a point wide or tall has no particles. */
  function ParticleCount(frame: Rect): (n: nat)
    ensures n == 0 <==> frame.width < 1.0 || frame.height < 1.0
  {
    Columns(frame) * Rows(frame)
  }

  /**
    Byte length requested from the buffer pool, `particleCount * 4 * (4 + 1)`:
    one record of `RecordStride` Floats per particle.
  */
  function BufferLength(frame: Rect): (n: nat)
    ensures n == ParticleCount(frame) * RecordStride * FloatSize
    ensures n / FloatSize == RecordStride * ParticleCount(frame)
  {
    ParticleCount(frame) * FloatSize * (4 + 1)
  }

  /** A 10 x 5 region holds exactly 50 particle records. */
  lemma TenByFiveRegion(x: real, y: real)
    ensures ParticleCount(Rect(x, y, 10.0, 5.0)) == 50
    ensures BufferLength(Rect(x, y, 10.0, 5.0)) == 1000
  {
    assert Truncate(10.0) == 10;
    assert Truncate(5.0) == 5;
  }

  /**
    Threadgroups dispatched for `n` particles, `(n + 32 - 1) / 32`: the
    ceiling of n / 32, so enough threads, and one group fewer would not be.
  */
  function ThreadgroupCount(n: nat): (g: nat)
    ensures ThreadgroupWidth * g >= n
    ensures ThreadgroupWidth * (g - 1) < n || n == 0
    ensures n == 0 <==> g == 0
  {
    var g := (n + ThreadgroupWidth - 1) / ThreadgroupWidth;
    assert n + 31 == 32 * g + (n + 31) % 32;
    g
  }

  /** Size in pixels of the render target for layer bounds `b`: three times the bounds, truncated. */
  function RenderSize(b: Rect): (size: (nat, nat))
    ensures size.0 as real <= 3.0 * b.width < size.0 as real + 1.0
    ensures size.1 as real <= 3.0 * b.height < size.1 as real + 1.0
  {
    (Truncate(b.width * RenderScale), Truncate(b.height * RenderScale))
  }

  // ---------------------------------------------------------------------
  // Particle records

  /** Lowest and highest initial speed: a draw from [0.1, 0.2] scaled by 420. */
  const MinSpeed: real := 0.1 * 420.0
  const MaxSpeed: real := 0.2 * 420.0

  /**
    The random draws for one particle, after the trigonometry: the velocity
    components `cos(direction) * speed` and `sin(direction) * speed`, and the
    weight.
  */
  datatype ParticleSeed = ParticleSeed(velocityX: real, velocityY: real, weight: real)
  {
    /** What the draws promise: a speed in [MinSpeed, MaxSpeed] and a weight in [0.7, 1.5]. */
    predicate InRange()
    {
      && MinSpeed * MinSpeed <= velocityX * velocityX + velocityY * velocityY <= MaxSpeed * MaxSpeed
      && 0.7 <= weight <= 1.5
    }
  }

  /** The random draws of a frame, by item position and particle index. */
  type Draws = (nat, nat) -> ParticleSeed

  /** The five Floats of one particle: zero offset, the initial velocity, the weight. */
  function Record(seed: ParticleSeed): (r: seq<real>)
    ensures |r| == RecordStride
  {
    [0.0, 0.0, seed.velocityX, seed.velocityY, seed.weight]
  }

  /** Index of field `f` of particle `p` in a buffer of stride-5 records. */
  function Slot(p: nat, f: nat): nat
  {
    RecordStride * p + f
  }

  /** The first `n` particle records of item `item`, one after the other. */
  function Particles(draws: Draws, item: nat, n: nat): (r: seq<real>)
    ensures |r| == RecordStride * n
  {
    if n == 0 then [] else Particles(draws, item, n - 1) + Record(draws(item, n - 1))
  }

  /** Field f of particle p sits at `p * 5 + f` and holds what the record layout puts there. */
  lemma {:induction false} ParticleField(draws: Draws, item: nat, n: nat, p: nat, f: nat)
    requires p < n && f < RecordStride
    ensures Slot(p, f) < |Particles(draws, item, n)|
    ensures Particles(draws, item, n)[Slot(p, f)] == Record(draws(item, p))[f]
  {
    if p < n - 1 {
      ParticleField(draws, item, n - 1, p, f);
    }
  }

  /**
    A freshly filled particle starts at rest offset zero with the drawn
    velocity and a weight in [0.7, 1.5], when the draws keep their promise.
  */
  lemma ParticleStart(draws: Draws, item: nat, n: nat, p: nat)
    requires p < n && draws(item, p).InRange()
    ensures var ps := Particles(draws, item, n);
      && ps[Slot(p, 0)] == 0.0 && ps[Slot(p, 1)] == 0.0
      && MinSpeed * MinSpeed <= ps[Slot(p, 2)] * ps[Slot(p, 2)] + ps[Slot(p, 3)] * ps[Slot(p, 3)] <= MaxSpeed * MaxSpeed
      && 0.7 <= ps[Slot(p, 4)] <= 1.5
  {
    ParticleField(draws, item, n, p, 0);
    ParticleField(draws, item, n, p, 1);
    ParticleField(draws, item, n, p, 2);
    ParticleField(draws, item, n, p, 3);
    ParticleField(draws, item, n, p, 4);
  }

  // ---------------------------------------------------------------------
  // The phase clock, on values

  /**
    One tick over (item, phase) pairs, in list order: every phase advances by
    `step`, the pairs whose new phase reaches FinishedPhase are dropped and the
    others are kept, in their original order, with the advanced phase.
  */
  function Advance<T>(s: seq<(T, real)>, step: real): (r: seq<(T, real)>)
    ensures |r| <= |s|
    ensures forall k :: 0 <= k < |r| ==> r[k].1 < FinishedPhase
  {
    if s == [] then []
    else
      var rest := Advance(s[1..], step);
      var p := s[0].1 + step;
      if p >= FinishedPhase then rest else [(s[0].0, p)] + rest
  }

  function Tags<T>(s: seq<(T, real)>): set<T>
  {
    set k | 0 <= k < |s| :: s[k].0
  }

  /** Every surviving pair has a phase below FinishedPhase and above the step, given non-negative input phases. */
  lemma {:induction false} AdvanceBounds<T>(s: seq<(T, real)>, step: real)
    requires forall k :: 0 <= k < |s| ==> 0.0 <= s[k].1
    ensures |Advance(s, step)| <= |s|
    ensures forall k :: 0 <= k < |Advance(s, step)| ==>
      step <= Advance(s, step)[k].1 < FinishedPhase
  {
    if s != [] {
      AdvanceBounds(s[1..], step);
    }
  }

  /** The tags of a list with one more pair in front. */
  lemma TagsCons<T>(x: (T, real), s: seq<(T, real)>)
    ensures Tags([x] + s) == {x.0} + Tags(s)
  {
    var a := [x] + s;
    forall t | t in Tags(a) ensures t in {x.0} + Tags(s) {
      var k :| 0 <= k < |a| && a[k].0 == t;
      if k > 0 { assert s[k - 1].0 == t; }
    }
    forall t | t in Tags(s) ensures t in Tags(a) {
      var k :| 0 <= k < |s| && s[k].0 == t;
      assert a[k + 1].0 == t;
    }
    assert a[0].0 == x.0;
  }

  /** Advance invents nothing: every surviving tag was in the input. */
  lemma {:induction false} AdvanceTagsFromInput<T>(s: seq<(T, real)>, step: real)
    ensures Tags(Advance(s, step)) <= Tags(s)
  {
    if s != [] {
      AdvanceTagsFromInput(s[1..], step);
      assert s == [s[0]] + s[1..];
      TagsCons(s[0], s[1..]);
      TagsCons((s[0].0, s[0].1 + step), Advance(s[1..], step));
    }
  }

  /**
    The fate of each input pair: it survives, with its phase advanced by
    `step`, exactly when the advanced phase is below FinishedPhase; otherwise
    its tag disappears. Tags are assumed distinct, as list items are.
  */
  lemma {:induction false} AdvanceFate<T>(s: seq<(T, real)>, step: real, k: nat)
    requires k < |s|
    requires forall i, j :: 0 <= i < j < |s| ==> s[i].0 != s[j].0
    ensures s[k].1 + step < FinishedPhase <==> s[k].0 in Tags(Advance(s, step))
    ensures s[k].1 + step < FinishedPhase ==> (s[k].0, s[k].1 + step) in Advance(s, step)
  {
    var rest := Advance(s[1..], step);
    var head := (s[0].0, s[0].1 + step);
    TagsCons(head, rest);
    if k > 0 {
      assert s[1..][k - 1] == s[k];
      AdvanceFate(s[1..], step, k - 1);
      assert s[k].0 != s[0].0;
    } else {
      AdvanceTagsFromInput(s[1..], step);
      assert s[0].0 !in Tags(s[1..]);
    }
  }

  /** Surviving tags stay distinct: a tick never duplicates an item. */
  lemma {:induction false} AdvanceDistinct<T>(s: seq<(T, real)>, step: real)
    requires forall i, j :: 0 <= i < j < |s| ==> s[i].0 != s[j].0
    ensures forall i, j :: 0 <= i < j < |Advance(s, step)| ==> Advance(s, step)[i].0 != Advance(s, step)[j].0
  {
    if s != [] {
      AdvanceDistinct(s[1..], step);
      AdvanceTagsFromInput(s[1..], step);
      var rest := Advance(s[1..], step);
      if s[0].1 + step < FinishedPhase {
        var a := [(s[0].0, s[0].1 + step)] + rest;
        forall i, j | 0 <= i < j < |a| ensures a[i].0 != a[j].0 {
          if i == 0 {
            assert a[j].0 == rest[j - 1].0;
            assert rest[j - 1].0 in Tags(rest);
            assert s[0].0 !in Tags(s[1..]);
          }
        }
      }
    }
  }

  /** Removal is local: a tick over a concatenation is the concatenation of the ticks, so survivors keep their relative order. */
  lemma {:induction false} AdvanceAppend<T>(s: seq<(T, real)>, t: seq<(T, real)>, step: real)
    ensures Advance(s + t, step) == Advance(s, step) + Advance(t, step)
  {
    if s == [] {
      assert s + t == t;
    } else {
      assert (s + t)[1..] == s[1..] + t;
      AdvanceAppend(s[1..], t, step);
    }
  }

  /** The list becomes empty exactly when every phase reaches FinishedPhase. */
  lemma {:induction false} AdvanceEmpty<T>(s: seq<(T, real)>, step: real)
    ensures Advance(s, step) == [] <==> forall k :: 0 <= k < |s| ==> s[k].1 + step >= FinishedPhase
  {
    if s != [] {
      AdvanceEmpty(s[1..], step);
      assert forall k :: 1 <= k < |s| ==> s[1..][k - 1] == s[k];
    }
  }

  /** `n` ticks of the phase clock. */
  function AdvanceTimes<T>(s: seq<(T, real)>, step: real, n: nat): seq<(T, real)>
  {
    if n == 0 then s else Advance(AdvanceTimes(s, step, n - 1), step)
  }

  /**
    A single item added at phase 0 is alive with phase n * step for as long as
    that stays below FinishedPhase, and gone from the first tick on which it
    does not.
  */
  lemma {:induction false} SingleItemLifetime<T>(t: T, step: real, n: nat)
    requires step > 0.0
    ensures AdvanceTimes([(t, 0.0)], step, n) ==
      if n as real * step < FinishedPhase then [(t, n as real * step)] else []
  {
    if n > 0 {
      var m := n - 1;
      SingleItemLifetime(t, step, m);
      var before := m as real * step;
      var after := n as real * step;
      assert after == before + step by {
        assert n as real == m as real + 1.0;
      }
      assert AdvanceTimes([(t, 0.0)], step, n) == Advance(AdvanceTimes([(t, 0.0)], step, m), step);
      if before < FinishedPhase {
        var one := [(t, before)];
        assert one[1..] == [];
        assert Advance(one[1..], step) == [];
      }
    }
  }

  /** At 60 ticks per second and unit speed factor an item lasts 239 ticks and is removed on the 240th. */
  lemma RemovedAfterFourSeconds<T>(t: T)
    ensures AdvanceTimes([(t, 0.0)], 1.0 / 60.0, 239) != []
    ensures AdvanceTimes([(t, 0.0)], 1.0 / 60.0, 240) == []
  {
    SingleItemLifetime(t, 1.0 / 60.0, 239);
    SingleItemLifetime(t, 1.0 / 60.0, 240);
  }

  // ---------------------------------------------------------------------
  // Objects

  /** A particle buffer from the shared pool; `contents` is its memory seen as Floats. */
  class ParticleBuffer {
    const length: nat
    const contents: array<real>

    constructor (length: nat)
      ensures this.length == length
      ensures contents.Length == length / FloatSize && fresh(contents)
    {
      this.length := length;
      contents := new real[length / FloatSize];
    }
  }

  /** One dissolving region: a frame, a texture, a phase and an optional particle buffer. */
  class Item {
    const frame: Rect
    const texture: Texture
    var phase: real
    var particleBuffer: ParticleBuffer?

    constructor (frame: Rect, texture: Texture)
      ensures this.frame == frame && this.texture == texture
      ensures phase == 0.0 && particleBuffer == null
    {
      this.frame := frame;
      this.texture := texture;
      phase := 0.0;
      particleBuffer := null;
    }
  }

  /**
    Writes the `count` particle records of item `item` into the Floats of a
    particle buffer, field by field; the Floats past the last record are left
    as they were.
  */
  method FillParticles(contents: array<real>, count: nat, draws: Draws, item: nat)
    requires RecordStride * count <= contents.Length
    modifies contents
    ensures contents[..RecordStride * count] == Particles(draws, item, count)
    ensures contents[RecordStride * count..] == old(contents[RecordStride * count..])
  {
    for i := 0 to count
      invariant contents[..RecordStride * i] == Particles(draws, item, i)
      invariant contents[RecordStride * count..] == old(contents[RecordStride * count..])
    {
      ghost var done := contents[..RecordStride * i];
      var seed := draws(item, i);
      contents[i * 5 + 0] := 0.0;
      contents[i * 5 + 1] := 0.0;
      contents[i * 5 + 2] := seed.velocityX;
      contents[i * 5 + 3] := seed.velocityY;
      contents[i * 5 + 4] := seed.weight;
      assert contents[..RecordStride * i] == done;
      assert contents[..RecordStride * (i + 1)] == done + Record(seed);
    }
  }

  /** The process-wide display-link driver: each subscription gets a new handle. */
  class DisplayLinkDriver {
    var nextId: nat

    constructor ()
      ensures nextId == 0
    {
      nextId := 0;
    }

    method Add() returns (link: Link)
      modifies this
      ensures link == Link(old(nextId)) && nextId == old(nextId) + 1
    {
      link := Link(nextId);
      nextId := nextId + 1;
    }
  }

  /** The items of a list, each paired with its current phase. */
  function Tagged(its: seq<Item>): (s: seq<(Item, real)>)
    reads its
    ensures |s| == |its|
  {
    if its == [] then [] else [(its[0], its[0].phase)] + Tagged(its[1..])
  }

  lemma {:induction false} TaggedAt(its: seq<Item>, k: nat)
    requires k < |its|
    ensures Tagged(its)[k] == (its[k], its[k].phase)
  {
    if k > 0 {
      TaggedAt(its[1..], k - 1);
    } else if |its| > 1 {
      TaggedAt(its[1..], 0);
    }
  }

  /** The position of the first occurrence of `x` in `s`, or `|s|` when there is none. */
  ghost function IndexOf<T>(s: seq<T>, x: T): (n: nat)
    ensures n <= |s|
  {
    if s == [] then 0 else if s[0] == x then 0 else 1 + IndexOf(s[1..], x)
  }

  /** No element occurs twice: every element is its own first occurrence. */
  ghost predicate Distinct<T>(s: seq<T>)
  {
    forall k :: 0 <= k < |s| ==> IndexOf(s, s[k]) == k
  }

  lemma {:induction false} IndexOfPairwise<T>(s: seq<T>, k: nat)
    requires k < |s|
    requires forall i, j :: 0 <= i < j < |s| ==> s[i] != s[j]
    ensures IndexOf(s, s[k]) == k
  {
    if k > 0 {
      assert s[0] != s[k];
      assert s[1..][k - 1] == s[k];
      IndexOfPairwise(s[1..], k - 1);
    }
  }

  /** Distinct is pairwise distinctness. */
  lemma DistinctPairwise<T>(s: seq<T>)
    ensures Distinct(s) <==> forall i, j :: 0 <= i < j < |s| ==> s[i] != s[j]
  {
    if forall i, j :: 0 <= i < j < |s| ==> s[i] != s[j] {
      forall k | 0 <= k < |s|
        ensures IndexOf(s, s[k]) == k
      {
        IndexOfPairwise(s, k);
      }
    }
    if Distinct(s) {
      forall i, j | 0 <= i < j < |s|
        ensures s[i] != s[j]
      {
        assert IndexOf(s, s[i]) == i && IndexOf(s, s[j]) == j;
      }
    }
  }

  /** Appending an element that does not occur keeps a list distinct. */
  lemma DistinctAppend<T>(s: seq<T>, x: T)
    requires Distinct(s) && x !in s
    ensures Distinct(s + [x])
  {
    DistinctPairwise(s);
    DistinctPairwise(s + [x]);
  }

  /** The items of a list of (item, phase) pairs, in order. */
  function Keys<T>(s: seq<(T, real)>): (r: seq<T>)
    ensures |r| == |s|
  {
    if s == [] then [] else [s[0].0] + Keys(s[1..])
  }

  lemma {:induction false} KeysAt<T>(s: seq<(T, real)>, k: nat)
    requires k < |s|
    ensures Keys(s)[k] == s[k].0
  {
    if k > 0 {
      KeysAt(s[1..], k - 1);
    }
  }

  /** The tick of the suffix of `s` from position i, walked by index. */
  function AdvanceFrom<T>(s: seq<(T, real)>, i: nat, step: real): seq<(T, real)>
    requires i <= |s|
    decreases |s| - i
  {
    if i == |s| then []
    else
      var rest := AdvanceFrom(s, i + 1, step);
      var p := s[i].1 + step;
      if p >= FinishedPhase then rest else [(s[i].0, p)] + rest
  }

  /** Walking by index computes the tick of the suffix. */
  lemma {:induction false} AdvanceFromSuffix<T>(s: seq<(T, real)>, i: nat, step: real)
    requires i <= |s|
    ensures AdvanceFrom(s, i, step) == Advance(s[i..], step)
    decreases |s| - i
  {
    if i < |s| {
      AdvanceFromSuffix(s, i + 1, step);
      assert s[i..][1..] == s[i + 1..];
    }
  }

  /** Removing position i of `prefix[..i + 1] + tail` leaves `prefix[..i] + tail`. */
  lemma RemoveAt<T>(prefix: seq<T>, tail: seq<T>, i: nat)
    requires i < |prefix|
    ensures var xs := prefix[..i + 1] + tail; xs[..i] + xs[i + 1..] == prefix[..i] + tail
  {
    var xs := prefix[..i + 1] + tail;
    assert xs[..i] == prefix[..i];
    assert xs[i + 1..] == tail;
  }

  /** Keeping position i of `prefix[..i + 1] + Keys(a)` moves it to the front of the kept pairs. */
  lemma KeepAt<T>(prefix: seq<T>, a: seq<(T, real)>, i: nat, p: real)
    requires i < |prefix|
    ensures prefix[..i + 1] + Keys(a) == prefix[..i] + Keys([(prefix[i], p)] + a)
  {
    assert ([(prefix[i], p)] + a)[1..] == a;
    assert prefix[..i + 1] == prefix[..i] + [prefix[i]];
  }

  /** Every pair that survives a tick is an input pair with its phase advanced by `step`. */
  lemma {:induction false} AdvanceOrigin<T>(s: seq<(T, real)>, step: real, j: nat) returns (k: nat)
    requires j < |Advance(s, step)|
    ensures k < |s| && Advance(s, step)[j] == (s[k].0, s[k].1 + step)
  {
    if s[0].1 + step >= FinishedPhase {
      var k' := AdvanceOrigin(s[1..], step, j);
      k := k' + 1;
    } else if j == 0 {
      k := 0;
    } else {
      var k' := AdvanceOrigin(s[1..], step, j - 1);
      k := k' + 1;
    }
  }

  /** With distinct tags, a tag is among the surviving keys exactly when its advanced phase is below FinishedPhase. */
  lemma AdvanceKeysFate<T>(s: seq<(T, real)>, step: real, k: nat)
    requires k < |s|
    requires forall i, j :: 0 <= i < j < |s| ==> s[i].0 != s[j].0
    ensures s[k].0 in Keys(Advance(s, step)) <==> s[k].1 + step < FinishedPhase
  {
    var a := Advance(s, step);
    AdvanceFate(s, step, k);
    if s[k].0 in Keys(a) {
      var j :| 0 <= j < |a| && Keys(a)[j] == s[k].0;
      KeysAt(a, j);
      assert s[k].0 in Tags(a);
    }
    if s[k].0 in Tags(a) {
      var j :| 0 <= j < |a| && a[j].0 == s[k].0;
      KeysAt(a, j);
    }
  }

  /**
    The heap agrees with a tick computed on values: if the surviving items are
    the keys of the advanced list and every item now carries its advanced
    phase, then pairing the items with their phases gives the advanced list.
  */
  lemma TaggedSurvivors(items: seq<Item>, olds: seq<Item>, before: seq<(Item, real)>, step: real)
    requires items == Keys(Advance(before, step))
    requires |before| == |olds|
    requires forall k :: 0 <= k < |olds| ==> before[k].0 == olds[k]
    requires forall k :: 0 <= k < |olds| ==> olds[k].phase == before[k].1 + step
    ensures Tagged(items) == Advance(before, step)
  {
    var a := Advance(before, step);
    forall j | 0 <= j < |a|
      ensures Tagged(items)[j] == a[j]
    {
      var k := AdvanceOrigin(before, step, j);
      KeysAt(a, j);
      TaggedAt(items, j);
    }
  }

  /** After a tick the list is again a list of distinct items whose phases lie in [step, FinishedPhase). */
  lemma SurvivorsAreValid(items: seq<Item>, before: seq<(Item, real)>, step: real)
    requires Tagged(items) == Advance(before, step)
    requires forall i, j :: 0 <= i < j < |before| ==> before[i].0 != before[j].0
    requires forall k :: 0 <= k < |before| ==> 0.0 <= before[k].1
    ensures Distinct(items)
    ensures forall k :: 0 <= k < |items| ==> step <= items[k].phase < FinishedPhase
  {
    AdvanceBounds(before, step);
    AdvanceDistinct(before, step);
    forall k | 0 <= k < |items|
      ensures step <= items[k].phase < FinishedPhase
    {
      TaggedAt(items, k);
    }
    forall a, b | 0 <= a < b < |items|
      ensures items[a] != items[b]
    {
      TaggedAt(items, a);
      TaggedAt(items, b);
    }
    DistinctPairwise(items);
  }

  /**
    What a right-to-left tick leaves behind: the survivors, paired with their
    phases, are the tick computed on values; they are distinct, their phases
    lie in [step, FinishedPhase); and an input item survives exactly when its
    advanced phase is below FinishedPhase.
  */
  lemma TickOutcome(olds: seq<Item>, items: seq<Item>, before: seq<(Item, real)>, step: real)
    requires step > 0.0
    requires |before| == |olds| && Distinct(olds)
    requires forall k :: 0 <= k < |olds| ==> before[k].0 == olds[k] && 0.0 <= before[k].1
    requires forall k {:trigger before[k]} :: 0 <= k < |olds| ==> olds[k].phase == before[k].1 + step
    requires items == Keys(Advance(before, step))
    requires BuffersFit(olds)
    ensures ItemsValid(items) && BuffersFit(items)
    ensures forall k :: 0 <= k < |items| ==> step <= items[k].phase
    ensures forall k :: 0 <= k < |olds| ==> (olds[k] in items <==> before[k].1 + step < FinishedPhase)
    ensures forall k :: 0 <= k < |olds| ==> olds[k].phase == before[k].1 + step
  {
    DistinctPairwise(olds);
    forall k | 0 <= k < |olds|
      ensures olds[k].phase == before[k].1 + step
    {
      assert before[k].0 == olds[k];
    }
    TaggedSurvivors(items, olds, before, step);
    forall k | 0 <= k < |olds|
      ensures olds[k] in items <==> before[k].1 + step < FinishedPhase
    {
      AdvanceKeysFate(before, step, k);
    }
    SurvivorsAreValid(items, before, step);
    forall j | 0 <= j < |items|
      ensures items[j] in olds
    {
      var k := AdvanceOrigin(before, step, j);
      KeysAt(Advance(before, step), j);
      assert items[j] == olds[k];
    }
  }

  /** A list of distinct items, each part-way through its animation. */
  /** Every buffer an item holds was sized for the item's frame: one stride-5 record per particle. */
  ghost predicate BuffersFit(its: seq<Item>)
    reads its`particleBuffer
  {
    forall k :: 0 <= k < |its| && its[k].particleBuffer != null ==>
      && its[k].particleBuffer.length == BufferLength(its[k].frame)
      && its[k].particleBuffer.contents.Length == RecordStride * ParticleCount(its[k].frame)
  }

  ghost predicate ItemsValid(its: seq<Item>)
    reads its`phase
  {
    && Distinct(its)
    && (forall k :: 0 <= k < |its| ==> 0.0 <= its[k].phase < FinishedPhase)
  }

  /** A map from each element of `s` to its position; it exists exactly when the elements are distinct. */
  lemma Positions<T>(s: seq<T>) returns (pos: map<T, nat>)
    requires Distinct(s)
    ensures forall k :: 0 <= k < |s| ==> s[k] in pos && pos[s[k]] == k
  {
    pos := map k | 0 <= k < |s| :: s[k] := IndexOf(s, s[k]);
    forall k | 0 <= k < |s|
      ensures s[k] in pos && pos[s[k]] == k
    {
      assert IndexOf(s, s[k]) == k;
    }
  }

  /**
    The loop of a tick: walks the list from the last item to the first,
    advancing each phase by `step` and removing an item from the list as soon
    as its phase reaches FinishedPhase. Returns the survivors, which are the
    keys of the tick computed on values, and whether anything was removed.
    `pos` witnesses that the items are distinct.
  */
  method AdvanceAndPrune(list0: seq<Item>, step: real, ghost pos: map<Item, nat>)
    returns (list: seq<Item>, didRemoveItems: bool)
    requires forall k :: 0 <= k < |list0| ==> list0[k] in pos && pos[list0[k]] == k
    modifies list0`phase
    ensures list == Keys(Advance(old(Tagged(list0)), step))
    ensures forall k :: 0 <= k < |list0| ==> list0[k].phase == old(list0[k].phase) + step
    ensures didRemoveItems <==> |list| < |list0|
  {
    ghost var before := Tagged(list0);
    forall k | 0 <= k < |list0|
      ensures before[k] == (list0[k], list0[k].phase)
    {
      TaggedAt(list0, k);
    }
    ghost var after: seq<(Item, real)> := [];
    list := list0;
    didRemoveItems := false;
    var i := |list|;
    while i > 0
      invariant 0 <= i <= |list0|
      invariant list == list0[..i] + Keys(after)
      invariant after == AdvanceFrom(before, i, step)
      invariant |list| <= |list0|
      invariant didRemoveItems <==> |list| < |list0|
      invariant forall k {:trigger before[k]} :: 0 <= k < |list0| ==>
        list0[k].phase == if k < i then before[k].1 else before[k].1 + step
    {
      i := i - 1;
      var item := list[i];
      assert item == list0[i];
      item.phase := item.phase + step;
      assert item.phase == before[i].1 + step;
      if item.phase >= FinishedPhase {
        RemoveAt(list0, Keys(after), i);
        list := list[..i] + list[i + 1..];
        didRemoveItems := true;
      } else {
        KeepAt(list0, after, i, item.phase);
        after := [(item, item.phase)] + after;
      }
    }
    AdvanceFromSuffix(before, 0, step);
    assert before[0..] == before;
  }

  /**
    A tick over a valid list of items: the survivors are the keys of the tick
    computed on values, they form a valid list again, every input item's phase
    advanced by `step`, and an input item survives exactly when its advanced
    phase is below FinishedPhase.
  */
  method Tick(list0: seq<Item>, step: real) returns (list: seq<Item>, didRemoveItems: bool)
    requires ItemsValid(list0) && BuffersFit(list0) && step > 0.0
    modifies list0`phase
    ensures list == Keys(Advance(old(Tagged(list0)), step))
    ensures ItemsValid(list) && BuffersFit(list)
    ensures forall k :: 0 <= k < |list0| ==> list0[k].phase == old(list0[k].phase) + step
    ensures forall k :: 0 <= k < |list0| ==> (list0[k] in list <==> old(list0[k].phase) + step < FinishedPhase)
    ensures didRemoveItems <==> |list| < |list0|
  {
    ghost var before := Tagged(list0);
    forall k | 0 <= k < |list0|
      ensures before[k] == (list0[k], list0[k].phase)
    {
      TaggedAt(list0, k);
    }
    ghost var pos := Positions(list0);
    list, didRemoveItems := AdvanceAndPrune(list0, step, pos);
    TickOutcome(list0, list, before, step);
  }

  /** The item holds a buffer sized for its frame whose Floats are the records drawn for position `k`. */
  ghost predicate Filled(it: Item, draws: Draws, k: nat)
    reads it, if it.particleBuffer != null then {it.particleBuffer.contents} else {}
  {
    && it.particleBuffer != null
    && it.particleBuffer.length == BufferLength(it.frame)
    && it.particleBuffer.contents[..] == Particles(draws, k, ParticleCount(it.frame))
  }

  /**
    The first loop of a frame update: every item without a particle buffer
    asks the pool for one of `BufferLength(frame)` bytes; when the pool
    answers (`pool[k]`), the item takes the buffer and its records are filled
    from the draws for its position. Items that already hold a buffer keep it.
    `pos` witnesses that the items are distinct.
  */
  method AllocateBuffers(list: seq<Item>, pool: seq<bool>, draws: Draws, ghost pos: map<Item, nat>)
    requires |pool| == |list|
    requires forall k :: 0 <= k < |list| ==> list[k] in pos && pos[list[k]] == k
    requires BuffersFit(list)
    modifies list`particleBuffer
    ensures BuffersFit(list)
    ensures forall k :: 0 <= k < |list| && old(list[k].particleBuffer) != null ==>
      list[k].particleBuffer == old(list[k].particleBuffer)
    ensures forall k :: 0 <= k < |list| && old(list[k].particleBuffer) == null && !pool[k] ==>
      list[k].particleBuffer == null
    ensures forall k :: 0 <= k < |list| && old(list[k].particleBuffer) == null && pool[k] ==>
      Filled(list[k], draws, k) && fresh(list[k].particleBuffer) && fresh(list[k].particleBuffer.contents)
  {
    for k := 0 to |list|
      invariant forall j :: 0 <= j < k && old(list[j].particleBuffer) != null ==>
        list[j].particleBuffer == old(list[j].particleBuffer)
      invariant forall j :: 0 <= j < k && old(list[j].particleBuffer) == null && !pool[j] ==>
        list[j].particleBuffer == null
      invariant forall j :: 0 <= j < k && old(list[j].particleBuffer) == null && pool[j] ==>
        Filled(list[j], draws, j) && fresh(list[j].particleBuffer) && fresh(list[j].particleBuffer.contents)
      invariant forall j :: k <= j < |list| ==> list[j].particleBuffer == old(list[j].particleBuffer)
    {
      var item := list[k];
      if item.particleBuffer == null {
        if pool[k] {
          var count := ParticleCount(item.frame);
          var buffer := new ParticleBuffer(count * 4 * (4 + 1));
          item.particleBuffer := buffer;
          FillParticles(buffer.contents, count, draws, k);
          assert buffer.contents[..] == buffer.contents[..RecordStride * count];
        }
      }
    }
    forall k | 0 <= k < |list| && list[k].particleBuffer != null
      ensures list[k].particleBuffer.length == BufferLength(list[k].frame)
      ensures list[k].particleBuffer.contents.Length == RecordStride * ParticleCount(list[k].frame)
    {
      if old(list[k].particleBuffer) == null {
        assert |list[k].particleBuffer.contents[..]| == |Particles(draws, k, ParticleCount(list[k].frame))|;
      }
    }
  }

  /** One dispatch of the particle-update kernel over one item's buffer. */
  datatype Dispatch = Dispatch(
    buffer: ParticleBuffer, columns: nat, rows: nat, phase: real, timeStep: real, threadgroups: nat)

  /** The vertices of one quad, drawn as two triangles. */
  const QuadVertexCount: nat := 6

  /**
    One draw call over one item's buffer, textured with the item's snapshot:
    a plain draw of one quad, or an instanced draw of one quad per particle.
  */
  datatype Draw =
    | QuadDraw(buffer: ParticleBuffer, texture: Texture, columns: nat, rows: nat, vertexCount: nat)
    | InstancedDraw(buffer: ParticleBuffer, texture: Texture, columns: nat, rows: nat, vertexCount: nat, instanceCount: nat)

  /**
    Whether a pass's pipeline state is built, so that the pass runs its
    commands: the shader library must have loaded, and the pass's functions
    must be found and compile (`builds`, the device's answer). Without the
    library neither pass runs.
  */
  function StateBuilt(library: Option<Library>, builds: bool): (built: bool)
    ensures built ==> library.Some?
  {
    library.Some? && builds
  }

  /** What a frame update encodes: the compute dispatches, the render target size and the draws. */
  datatype FramePlan = FramePlan(dispatches: seq<Dispatch>, renderSize: (nat, nat), draws: seq<Draw>)

  function DispatchOf(it: Item, step: real): Dispatch
    requires it.particleBuffer != null
    reads it
  {
    var columns := Columns(it.frame);
    var rows := Rows(it.frame);
    Dispatch(it.particleBuffer, columns, rows, it.phase, step, ThreadgroupCount(rows * columns))
  }

  function QuadDrawOf(it: Item): Draw
    requires it.particleBuffer != null
    reads it
  {
    QuadDraw(it.particleBuffer, it.texture, Columns(it.frame), Rows(it.frame), QuadVertexCount)
  }

  function DrawOf(it: Item): Draw
    requires it.particleBuffer != null
    reads it
  {
    InstancedDraw(it.particleBuffer, it.texture, Columns(it.frame), Rows(it.frame), QuadVertexCount, ParticleCount(it.frame))
  }

  /** The compute pass: one dispatch per item that holds a buffer, in list order. */
  function Dispatches(its: seq<Item>, step: real): (ds: seq<Dispatch>)
    reads its
    ensures |ds| <= |its|
  {
    if its == [] then []
    else
      var rest := Dispatches(its[..|its| - 1], step);
      var last := its[|its| - 1];
      if last.particleBuffer == null then rest else rest + [DispatchOf(last, step)]
  }

  /**
    The render pass: for each item that holds a buffer, in list order, a
    plain quad draw followed by the instanced draw.
  */
  function RenderDraws(its: seq<Item>): (ds: seq<Draw>)
    reads its
    ensures |ds| <= 2 * |its| && |ds| % 2 == 0
  {
    if its == [] then []
    else
      var rest := RenderDraws(its[..|its| - 1]);
      var last := its[|its| - 1];
      if last.particleBuffer == null then rest else rest + [QuadDrawOf(last), DrawOf(last)]
  }

  /**
    The compute pass skips exactly the items without a buffer: every dispatch
    belongs to an item holding that buffer, every such item is dispatched, and
    each dispatch launches enough 32-wide threadgroups for its particles and
    not a whole group more.
  */
  lemma {:induction false} DispatchesCoverBufferedItems(its: seq<Item>, step: real)
    ensures forall j :: 0 <= j < |Dispatches(its, step)| ==>
      exists k :: 0 <= k < |its| && its[k].particleBuffer != null && Dispatches(its, step)[j] == DispatchOf(its[k], step)
    ensures forall k :: 0 <= k < |its| && its[k].particleBuffer != null ==> DispatchOf(its[k], step) in Dispatches(its, step)
    ensures forall d :: d in Dispatches(its, step) ==>
      && ThreadgroupWidth * d.threadgroups >= d.columns * d.rows
      && (ThreadgroupWidth * (d.threadgroups - 1) < d.columns * d.rows || d.columns * d.rows == 0)
  {
    if its != [] {
      var init := its[..|its| - 1];
      DispatchesCoverBufferedItems(init, step);
      var ds := Dispatches(its, step);
      forall j | 0 <= j < |ds|
        ensures exists k :: 0 <= k < |its| && its[k].particleBuffer != null && ds[j] == DispatchOf(its[k], step)
      {
        if j < |Dispatches(init, step)| {
          var k :| 0 <= k < |init| && init[k].particleBuffer != null && Dispatches(init, step)[j] == DispatchOf(init[k], step);
          assert its[k] == init[k];
        } else {
          assert ds[j] == DispatchOf(its[|its| - 1], step);
        }
      }
      forall k | 0 <= k < |its| && its[k].particleBuffer != null
        ensures DispatchOf(its[k], step) in ds
      {
        if k < |init| {
          assert its[k] == init[k];
        }
      }
      forall d | d in ds
        ensures ThreadgroupWidth * d.threadgroups >= d.columns * d.rows
        ensures ThreadgroupWidth * (d.threadgroups - 1) < d.columns * d.rows || d.columns * d.rows == 0
      {
        if d !in Dispatches(init, step) {
          assert d == DispatchOf(its[|its| - 1], step);
        }
      }
    } else {
      assert Dispatches(its, step) == [];
    }
  }

  /**
    The render pass draws exactly the items that hold a buffer: the draws
    come in pairs, each a plain quad followed by the instanced draw of the
    same buffered item, and every such item gets its pair. Each instanced draw
    has one instance per particle; when the buffers fit their frames, it reads
    exactly the Floats of its buffer.
  */
  lemma {:induction false} DrawsCoverBufferedItems(its: seq<Item>)
    ensures forall m :: 0 <= m < |RenderDraws(its)| / 2 ==>
      exists k :: 0 <= k < |its| && its[k].particleBuffer != null
        && RenderDraws(its)[2 * m] == QuadDrawOf(its[k]) && RenderDraws(its)[2 * m + 1] == DrawOf(its[k])
    ensures forall k :: 0 <= k < |its| && its[k].particleBuffer != null ==>
      QuadDrawOf(its[k]) in RenderDraws(its) && DrawOf(its[k]) in RenderDraws(its)
    ensures forall d :: d in RenderDraws(its) ==> d.vertexCount == QuadVertexCount
    ensures forall d :: d in RenderDraws(its) && d.InstancedDraw? ==> d.instanceCount == d.columns * d.rows
    ensures BuffersFit(its) ==>
      forall d :: d in RenderDraws(its) && d.InstancedDraw? ==> RecordStride * d.instanceCount == d.buffer.contents.Length
  {
    if its != [] {
      var init := its[..|its| - 1];
      DrawsCoverBufferedItems(init);
      var ds := RenderDraws(its);
      var rest := RenderDraws(init);
      forall m | 0 <= m < |ds| / 2
        ensures exists k :: 0 <= k < |its| && its[k].particleBuffer != null &&
                           ds[2 * m] == QuadDrawOf(its[k]) && ds[2 * m + 1] == DrawOf(its[k])
      {
        if m < |rest| / 2 {
          var k :| 0 <= k < |init| && init[k].particleBuffer != null
            && rest[2 * m] == QuadDrawOf(init[k]) && rest[2 * m + 1] == DrawOf(init[k]);
          assert its[k] == init[k];
        } else {
          var last := |its| - 1;
          assert ds == rest + [QuadDrawOf(its[last]), DrawOf(its[last])];
          assert ds[2 * m] == QuadDrawOf(its[last]) && ds[2 * m + 1] == DrawOf(its[last]);
        }
      }
      forall k | 0 <= k < |its| && its[k].particleBuffer != null
        ensures QuadDrawOf(its[k]) in ds && DrawOf(its[k]) in ds
      {
        if k < |init| {
          assert its[k] == init[k];
        }
      }
      if BuffersFit(its) {
        assert BuffersFit(init) by {
          forall k | 0 <= k < |init| && init[k].particleBuffer != null
            ensures init[k].particleBuffer.contents.Length == RecordStride * ParticleCount(init[k].frame)
          {
            assert its[k] == init[k];
          }
        }
      }
    } else {
      assert RenderDraws(its) == [];
    }
  }

  /** The process-wide compute-if-absent slot for the compiled shader library. */
  class MetalLibraryCache {
    var value: Option<Library>

    constructor ()
      ensures value == None
    {
      value := None;
    }

    /**
      Returns the stored library if there is one. Otherwise tries to load it:
      the resource bundle must be found, must open, and the library must
      compile; only a success is stored.
    */
    method Get(bundlePath: Option<string>, bundleOpens: bool, compiled: Option<Library>)
      returns (r: Option<Library>)
      modifies this
      ensures old(value).Some? ==> r == old(value) && value == old(value)
      ensures old(value).None? ==> r == LoadLibrary(bundlePath, bundleOpens, compiled) && value == r
    {
      if value.Some? {
        return value;
      }
      if bundlePath.None? {
        return None;
      }
      if !bundleOpens {
        return None;
      }
      if compiled.None? {
        return None;
      }
      value := compiled;
      r := compiled;
    }
  }

  /**
    One attempt to load the shader library: it yields a library only when the
    bundle is found, opens and compiles, and then it is the compiled one.
  */
  function LoadLibrary(bundlePath: Option<string>, bundleOpens: bool, compiled: Option<Library>): (r: Option<Library>)
    ensures r.Some? <==> bundlePath.Some? && bundleOpens && compiled.Some?
    ensures r.Some? ==> r == compiled
  {
    if bundlePath.Some? && bundleOpens then compiled else None
  }

  /** The layer that owns the items and drives them from the display link. */
  class DustEffectLayer {
    var items: seq<Item>
    var updateLink: Option<Link>
    var isInHierarchy: bool
    var bounds: Rect

    /** The display link is held exactly while there are items and the layer is in a rendered hierarchy. */
    predicate LinkHeldWhenNeeded()
      reads this
    {
      updateLink.Some? <==> (items != [] && isInHierarchy)
    }

    ghost predicate Valid()
      reads this, items
    {
      && ItemsValid(items)
      && BuffersFit(items)
      && LinkHeldWhenNeeded()
    }

    constructor ()
      ensures Valid()
      ensures items == [] && updateLink == None && !isInHierarchy
    {
      items := [];
      updateLink := None;
      isInHierarchy := false;
      bounds := Rect(0.0, 0.0, 0.0, 0.0);
    }

    /** Takes or drops the display-link subscription; an existing subscription is kept, not replaced. */
    method UpdateNeedsAnimation(driver: DisplayLinkDriver)
      modifies this`updateLink, driver
      ensures LinkHeldWhenNeeded()
      ensures items != [] && isInHierarchy && old(updateLink).Some? ==> updateLink == old(updateLink)
      ensures items != [] && isInHierarchy && old(updateLink).None? ==>
        updateLink == Some(Link(old(driver.nextId))) && driver.nextId == old(driver.nextId) + 1
      ensures !(items != [] && isInHierarchy && old(updateLink).None?) ==> driver.nextId == old(driver.nextId)
    {
      if items != [] && isInHierarchy {
        if updateLink.None? {
          var link := driver.Add();
          updateLink := Some(link);
        }
      } else {
        if updateLink.Some? {
          updateLink := None;
        }
      }
    }

    /** The hierarchy callback: the layer entered or left a rendered hierarchy. */
    method SetInHierarchy(inHierarchy: bool, driver: DisplayLinkDriver)
      requires Valid()
      modifies this`isInHierarchy, this`updateLink, driver
      ensures Valid() && isInHierarchy == inHierarchy
      ensures !inHierarchy ==> updateLink == None
      ensures inHierarchy && items != [] && old(updateLink).Some? ==> updateLink == old(updateLink)
    {
      isInHierarchy := inHierarchy;
      UpdateNeedsAnimation(driver);
    }

    /**
      Adds a dissolving region. The texture loader may fail (`texture` is
      None), and then nothing is added and nothing else changes.
    */
    method AddItem(frame: Rect, texture: Option<Texture>, driver: DisplayLinkDriver)
      requires Valid()
      modifies this`items, this`updateLink, driver
      ensures Valid()
      ensures texture.None? ==> items == old(items) && updateLink == old(updateLink)
      ensures texture.Some? ==>
        && |items| == |old(items)| + 1
        && items[..|old(items)|] == old(items)
        && fresh(items[|old(items)|])
        && items[|old(items)|].frame == frame
        && items[|old(items)|].texture == texture.value
        && items[|old(items)|].phase == 0.0
        && items[|old(items)|].particleBuffer == null
      ensures old(updateLink).Some? ==> updateLink == old(updateLink)
    {
      if texture.Some? {
        var item := new Item(frame, texture.value);
        DistinctAppend(items, item);
        items := items + [item];
        UpdateNeedsAnimation(driver);
      }
    }

    /**
      One display-link tick. Walks the items from the last to the first,
      advancing each phase by `step` (the nominal 1/60 divided by the
      animation speed factor) and removing an item as soon as its phase
      reaches FinishedPhase; then re-evaluates the subscription. Returns
      whether `becameEmpty` fires: some item was removed and none is left.
    */
    method UpdateItems(step: real, driver: DisplayLinkDriver) returns (becameEmpty: bool)
      requires Valid() && step > 0.0
      modifies this`items, this`updateLink, items`phase, driver
      ensures Valid()
      ensures items == Keys(Advance(old(Tagged(items)), step))
      ensures forall k :: 0 <= k < |old(items)| ==> old(items)[k].phase == old(items[k].phase) + step
      ensures forall k :: 0 <= k < |old(items)| ==>
        (old(items)[k] in items <==> old(items[k].phase) + step < FinishedPhase)
      ensures old(updateLink).Some? && items != [] ==> updateLink == old(updateLink)
      ensures becameEmpty <==> old(items) != [] && items == []
    {
      assert updateLink.Some? ==> isInHierarchy;
      var didRemoveItems;
      items, didRemoveItems := Tick(items, step);
      UpdateNeedsAnimation(driver);
      becameEmpty := didRemoveItems && items == [];
    }

    /**
      The compute pass over the current items: the loop that skips items
      without a buffer and dispatches the others.
    */
    method EncodeCompute(step: real) returns (ds: seq<Dispatch>)
      ensures ds == Dispatches(items, step)
    {
      ds := [];
      for k := 0 to |items|
        invariant ds == Dispatches(items[..k], step)
      {
        assert items[..k + 1][..k] == items[..k];
        var item := items[k];
        if item.particleBuffer != null {
          var columns := Columns(item.frame);
          var rows := Rows(item.frame);
          var threadgroups := (rows * columns + ThreadgroupWidth - 1) / ThreadgroupWidth;
          ds := ds + [Dispatch(item.particleBuffer, columns, rows, item.phase, step, threadgroups)];
        }
      }
      assert items[..|items|] == items;
    }

    /**
      The render pass over the current items: a plain quad draw and then the
      instanced draw for each item that holds a buffer.
    */
    method EncodeRender() returns (ds: seq<Draw>)
      ensures ds == RenderDraws(items)
    {
      ds := [];
      for k := 0 to |items|
        invariant ds == RenderDraws(items[..k])
      {
        assert items[..k + 1][..k] == items[..k];
        var item := items[k];
        if item.particleBuffer != null {
          var columns := Columns(item.frame);
          var rows := Rows(item.frame);
          ds := ds + [QuadDraw(item.particleBuffer, item.texture, columns, rows, 6)];
          ds := ds + [InstancedDraw(item.particleBuffer, item.texture, columns, rows, 6, columns * rows)];
        }
      }
      assert items[..|items|] == items;
    }

    /**
      One frame update. Nothing happens while the bounds are empty. Otherwise
      every item without a buffer asks the pool for one (`pool[k]` is the
      pool's answer for the item at position k) and fills it from the draws;
      then the compute pass, the 3x render target and the render pass are
      encoded over the items. `library` is what `MetalLibraryCache.Get`
      returned; `computeBuilds` and `renderBuilds` say whether the device
      builds each pass's pipeline state from it. A pass whose state is not
      built encodes nothing, so without the library no dispatch and no draw
      is encoded, while the buffers are still allocated.
    */
    method Update(pool: seq<bool>, draws: Draws, step: real, library: Option<Library>, computeBuilds: bool, renderBuilds: bool)
      returns (frame: Option<FramePlan>)
      requires Valid() && |pool| == |items|
      modifies items`particleBuffer
      ensures Valid()
      ensures bounds.IsEmpty() ==>
        && frame.None?
        && (forall k :: 0 <= k < |items| ==> items[k].particleBuffer == old(items[k].particleBuffer))
      ensures !bounds.IsEmpty() ==>
        && (forall k :: 0 <= k < |items| && old(items[k].particleBuffer) != null ==>
              items[k].particleBuffer == old(items[k].particleBuffer))
        && (forall k :: 0 <= k < |items| && old(items[k].particleBuffer) == null && !pool[k] ==>
              items[k].particleBuffer == null)
        && (forall k :: 0 <= k < |items| && old(items[k].particleBuffer) == null && pool[k] ==>
              Filled(items[k], draws, k) && fresh(items[k].particleBuffer))
        && frame == Some(FramePlan(
             if StateBuilt(library, computeBuilds) then Dispatches(items, step) else [],
             RenderSize(bounds),
             if StateBuilt(library, renderBuilds) then RenderDraws(items) else []))
      ensures frame.Some? && (frame.value.dispatches != [] || frame.value.draws != []) ==> library.Some?
    {
      if bounds.IsEmpty() {
        return None;
      }
      ghost var pos := Positions(items);
      AllocateBuffers(items, pool, draws, pos);
      var dispatches: seq<Dispatch> := [];
      if StateBuilt(library, computeBuilds) {
        dispatches := EncodeCompute(step);
      }
      var drawCalls: seq<Draw> := [];
      if StateBuilt(library, renderBuilds) {
        drawCalls := EncodeRender();
      }
      frame := Some(FramePlan(dispatches, RenderSize(bounds), drawCalls));
    }
  }
}
