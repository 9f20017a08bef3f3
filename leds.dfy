/** The LED ring animations: each state says what the ring shows when it is
    installed and, for the animated ones, what it shows on every tick of the
    driver loop. */
module Leds {
  import opened Wrappers
  import opened Numeric

  /** A colour `led.set` accepts: a colour name, or a map from channel
      (`r`, `g`, `b`, `w`) to level. */
  datatype Color = Named(name: string) | Levels(levels: map<string, int>)

  /** The argument of one `led.set` call: one colour for the whole ring, or
      one colour per LED. */
  datatype LedWrite = Solid(color: Color) | PerLed(colors: seq<Color>)

  const Black: Color := Named("black")

  /** Which of the state classes an object is, with the attributes its
      constructor keeps. `Base` is a plain `LedState()`. */
  datatype Kind =
    | Base
    | Joy
    | Loop(rgbw: string)
    | Progress(color: Color, percentage: real)
    | Breath(rgbw: string)
    | StaticColor(color: Color)
    | Close(color: Color)

  /** The states whose `get_next_color` cycles through a table. */
  predicate Periodic(k: Kind)
  {
    k.Joy? || k.Breath? || k.Loop?
  }

  /** The states whose `get_next_color` returns something other than `None`. */
  predicate Animated(k: Kind)
  {
    Periodic(k) || k.Close?
  }

  /** The modulus of the table index: the doubled table for `Joy` and
      `Breath`, the ring length for `Loop`. */
  function Period(k: Kind, length: nat): nat
  {
    if k.Loop? then length else 2 * length
  }

  lemma SplitQuotient(q: real, r: real, d: real)
    requires d > 0.0
    ensures (q * d + r) / d == q + r / d
  {
  }

  lemma FractionBelowOne(r: real, d: real)
    requires 0.0 <= r < d
    ensures 0.0 <= r / d < 1.0
  {
  }

  lemma TruncBetween(x: real, n: nat)
    requires n as real <= x < n as real + 1.0
    ensures Trunc(x) == n
  {
  }

  /** `int(a / d)` with Python's true division is the integer quotient. */
  lemma QuotientFloor(a: nat, d: nat)
    requires d >= 1
    ensures Trunc(a as real / d as real) == a / d
  {
    var q, r := a / d, a % d;
    assert a == q * d + r;
    assert a as real == q as real * d as real + r as real;
    SplitQuotient(q as real, r as real, d as real);
    FractionBelowOne(r as real, d as real);
    assert a as real / d as real == q as real + r as real / d as real;
    TruncBetween(a as real / d as real, q);
  }

  /** `int(255 / led.length)`: the brightness step between neighbouring LEDs. */
  function Interval(length: nat): (step: nat)
    requires length >= 1
    ensures step == 255 / length
    ensures step * length <= 255
  {
    QuotientFloor(255, length);
    Trunc(255.0 / length as real)
  }

  lemma StepProductBound(i: nat, length: nat)
    requires i < length
    ensures i * Interval(length) <= 255
  {
    MulMonotone(i, length, Interval(length));
  }

  lemma MulMonotone(i: nat, j: nat, step: nat)
    requires i <= j
    ensures i * step <= j * step
  {
    assert j * step == i * step + (j - i) * step;
  }

  /** `[255 - i*interval for i in range(led.length)]`: levels that start at
      full brightness and never increase. */
  function Ramp(length: nat): (levels: seq<int>)
    requires length >= 1
    ensures |levels| == length && levels[0] == 255
    ensures forall i :: 0 <= i < length ==> 0 <= levels[i] <= 255
    ensures forall i, j :: 0 <= i <= j < length ==> levels[j] <= levels[i]
  {
    var step := Interval(length);
    forall i | 0 <= i < length ensures i * step <= 255 {
      StepProductBound(i, length);
    }
    forall i, j | 0 <= i <= j < length ensures i * step <= j * step {
      MulMonotone(i, j, step);
    }
    seq(length, i requires 0 <= i < length => 255 - i * step)
  }

  /** `s[::-1]`. */
  function Reverse<T>(s: seq<T>): (r: seq<T>)
    ensures |r| == |s|
    ensures forall i :: 0 <= i < |s| ==> r[i] == s[|s| - 1 - i]
  {
    if s == [] then [] else Reverse(s[1..]) + [s[0]]
  }

  /** The table of `Joy` and `Breath`: the ramp down followed by its mirror. */
  function BrightTable(length: nat): seq<int>
    requires length >= 1
  {
    Ramp(length) + Reverse(Ramp(length))
  }

  /** The table fades from full brightness down and back up symmetrically,
      staying within 0..255, and starts and ends at full brightness. */
  lemma BrightTableShape(length: nat)
    requires length >= 1
    ensures |BrightTable(length)| == 2 * length
    ensures forall i :: 0 <= i < 2 * length ==> BrightTable(length)[i] == BrightTable(length)[2 * length - 1 - i]
    ensures forall i :: 0 <= i < 2 * length ==> 0 <= BrightTable(length)[i] <= 255
    ensures BrightTable(length)[0] == BrightTable(length)[2 * length - 1] == 255
  {
    var ramp, t := Ramp(length), BrightTable(length);
    forall i | 0 <= i < 2 * length
      ensures t[i] == t[2 * length - 1 - i] && 0 <= t[i] <= 255
    {
      if i < length {
        assert t[2 * length - 1 - i] == Reverse(ramp)[length - 1 - i] == ramp[i];
      } else {
        assert t[i] == Reverse(ramp)[i - length] == ramp[2 * length - 1 - i];
      }
    }
  }

  /** One lap of `Loop`'s ring: LED `i` lit at `Ramp(length)[i]` on one channel. */
  function LoopRamp(length: nat, rgbw: string): (lap: seq<Color>)
    requires length >= 1
    ensures |lap| == length
  {
    seq(length, i requires 0 <= i < length => Levels(map[rgbw := Ramp(length)[i]]))
  }

  /** `[{rgbw_color: 255 - i * interval} for i in range(led.length)] * 2`. */
  function LoopTable(length: nat, rgbw: string): seq<Color>
    requires length >= 1
  {
    LoopRamp(length, rgbw) + LoopRamp(length, rgbw)
  }

  /** The lap turned so that it starts at LED `start`. */
  function Rotation(length: nat, rgbw: string, start: nat): (ring: seq<Color>)
    requires length >= 1
    ensures |ring| == length
  {
    seq(length, j requires 0 <= j < length => LoopRamp(length, rgbw)[(start + j) % length])
  }

  lemma ModWithinTwo(x: nat, d: nat)
    requires d >= 1 && x < 2 * d
    ensures x % d == if x < d then x else x - d
  {
    if x >= d {
      assert x == 1 * d + (x - d);
    }
  }

  /** `bright[index : index + led.length]` is always a whole ring: the lap
      rotated to start at `index`. */
  lemma LoopWindow(length: nat, rgbw: string, start: nat)
    requires length >= 1 && start < length
    ensures LoopTable(length, rgbw)[start..start + length] == Rotation(length, rgbw, start)
  {
    var window, lap := LoopTable(length, rgbw)[start..start + length], LoopRamp(length, rgbw);
    forall j | 0 <= j < length ensures window[j] == Rotation(length, rgbw, start)[j] {
      ModWithinTwo(start + j, length);
      if start + j < length {
        assert window[j] == lap[start + j];
      } else {
        assert window[j] == lap[start + j - length];
      }
    }
  }

  lemma MulGrows(a: int, d: int)
    requires a >= 1 && d >= 1
    ensures a * d >= d
  {
    assert a * d == (a - 1) * d + d;
  }

  /** The remainder is the one `r` with `x == q * d + r` and `0 <= r < d`. */
  lemma ModUnique(x: int, d: int, q: int, r: int)
    requires d >= 1 && 0 <= r < d && x == q * d + r
    ensures x % d == r
  {
    var q', r' := x / d, x % d;
    assert q' * d + r' == x;
    assert (q - q') * d == r' - r by {
      assert (q - q') * d == q * d - q' * d;
    }
    if q > q' {
      MulGrows(q - q', d);
    } else if q < q' {
      MulGrows(q' - q, d);
    }
  }

  /** `(x % d + 1) % d == (x + 1) % d`: stepping the index once more. */
  lemma ModSucc(x: nat, d: nat)
    requires d >= 1
    ensures (x % d + 1) % d == (x + 1) % d
  {
    var q, r := x / d, x % d;
    if r + 1 < d {
      ModUnique(x + 1, d, q, r + 1);
      ModUnique(r + 1, d, 0, r + 1);
    } else {
      assert x + 1 == (q + 1) * d + 0;
      ModUnique(x + 1, d, q + 1, 0);
      ModUnique(r + 1, d, 1, 0);
    }
  }

  lemma ShiftByPeriod(x: nat, p: nat)
    requires p >= 1
    ensures (x + p) % p == x % p
  {
    var q, r := x / p, x % p;
    assert x == q * p + r;
    assert x + p == (q + 1) * p + r;
    ModUnique(x + p, p, q + 1, r);
  }

  /** What a periodic state writes when its index is `index`. */
  function Frame(k: Kind, length: nat, index: nat): LedWrite
    requires Periodic(k) && length >= 1 && index < Period(k, length)
  {
    BrightTableShape(length);
    match k
    case Joy =>
      var b := BrightTable(length)[index];
      Solid(Levels(map["r" := b, "g" := b]))
    case Breath(c) => Solid(Levels(map[c := BrightTable(length)[index]]))
    case Loop(c) => PerLed(Rotation(length, c, index))
  }

  /** The writes of `steps` ticks of a periodic state starting at `start`. */
  function Cycle(k: Kind, length: nat, start: nat, steps: nat): (frames: seq<LedWrite>)
    requires Periodic(k) && length >= 1
    ensures |frames| == steps
  {
    if steps == 0 then []
    else Cycle(k, length, start, steps - 1) + [Frame(k, length, (start + steps - 1) % Period(k, length))]
  }

  /** Tick `j` of a periodic state writes the frame `j` places on from `start`. */
  lemma {:induction false} CycleFrames(k: Kind, length: nat, start: nat, steps: nat)
    requires Periodic(k) && length >= 1
    ensures forall j :: 0 <= j < steps ==>
      Cycle(k, length, start, steps)[j] == Frame(k, length, (start + j) % Period(k, length))
  {
    if steps > 0 {
      CycleFrames(k, length, start, steps - 1);
    }
  }

  /** Two full periods of writes repeat themselves. */
  lemma CycleRepeats(k: Kind, length: nat, start: nat)
    requires Periodic(k) && length >= 1
    ensures forall j :: 0 <= j < Period(k, length) ==>
      Cycle(k, length, start, 2 * Period(k, length))[j + Period(k, length)] ==
      Cycle(k, length, start, 2 * Period(k, length))[j]
  {
    var p, frames := Period(k, length), Cycle(k, length, start, 2 * Period(k, length));
    CycleFrames(k, length, start, 2 * p);
    forall j | 0 <= j < p ensures frames[j + p] == frames[j] {
      ShiftByPeriod(start + j, p);
    }
  }

  /** `int(percentage * led.length / 100)`: how many LEDs `Progress` lights. */
  function LitCount(percentage: real, length: nat): int
  {
    Trunc(percentage * length as real / 100.0)
  }

  /** Between 0% and 100% the count is between none and every LED, 100%
      lights the whole ring, and a larger percentage never lights fewer. */
  lemma LitCountBounds(percentage: real, length: nat)
    requires 0.0 <= percentage <= 100.0
    ensures 0 <= LitCount(percentage, length) <= length
    ensures LitCount(100.0, length) == length
  {
    var x := percentage * length as real / 100.0;
    assert percentage * length as real <= 100.0 * length as real;
    TruncMonotone(x, length as real);
    TruncOfInt(length);
    assert 100.0 * length as real / 100.0 == length as real;
  }

  lemma LitCountMonotone(p: real, q: real, length: nat)
    requires p <= q
    ensures LitCount(p, length) <= LitCount(q, length)
  {
    assert p * length as real <= q * length as real;
    TruncMonotone(p * length as real / 100.0, q * length as real / 100.0);
  }

  /** `[c] * k`: empty when `k` is not positive. */
  function Repeat<T>(c: T, k: int): (cs: seq<T>)
    ensures |cs| == if k > 0 then k else 0
    ensures forall i :: 0 <= i < |cs| ==> cs[i] == c
    decreases if k > 0 then k else 0
  {
    if k <= 0 then [] else Repeat(c, k - 1) + [c]
  }

  /** The writes of `steps` ticks of a closing state whose array holds
      `lit` LEDs: one LED fewer each tick, then black. */
  function Drain(c: Color, lit: nat, steps: nat): (frames: seq<LedWrite>)
    ensures |frames| == steps
  {
    if steps == 0 then []
    else Drain(c, lit, steps - 1) + [if steps <= lit then PerLed(Repeat(c, lit - steps)) else Solid(Black)]
  }

  /** Tick `j` shows `lit - 1 - j` LEDs while any are left, and black after. */
  lemma {:induction false} DrainFrames(c: Color, lit: nat, steps: nat)
    ensures forall j :: 0 <= j < steps ==>
      Drain(c, lit, steps)[j] == if j < lit then PerLed(Repeat(c, lit - 1 - j)) else Solid(Black)
  {
    if steps > 0 {
      DrainFrames(c, lit, steps - 1);
    }
  }

  /** `self.__class__ == other.__class__`. */
  predicate SameClass(a: Kind, b: Kind)
  {
    match a
    case Base => b.Base?
    case Joy => b.Joy?
    case Loop(_) => b.Loop?
    case Progress(_, _) => b.Progress?
    case Breath(_) => b.Breath?
    case StaticColor(_) => b.StaticColor?
    case Close(_) => b.Close?
  }

  class LedState {
    const kind: Kind
    /** `led.length`, the number of LEDs on the ring. */
    const length: nat
    /** The brightness table of `Joy` and `Breath`. */
    const bright: seq<int>
    /** The doubled ring of `Loop`. */
    const ring: seq<Color>
    var index: nat
    /** `Close`'s `array`: the LEDs still lit. */
    var lights: seq<Color>

    ghost predicate Valid()
      reads this
    {
      && (Periodic(kind) ==> length >= 1 && index < Period(kind, length))
      && ((kind.Joy? || kind.Breath?) && length >= 1 ==> bright == BrightTable(length))
      && (kind.Loop? && length >= 1 ==> ring == LoopTable(length, kind.rgbw))
      && (kind.Close? ==> lights == Repeat(kind.color, |lights|) && |lights| <= length)
    }

    /** `initial_led_state`: what `EvaLed.set` writes when this state is
        installed. `Close` hands over its live array. */
    function Initial(): LedWrite
      reads this
    {
      match kind
      case Progress(c, p) => PerLed(Repeat(c, LitCount(p, length)))
      case StaticColor(c) => Solid(c)
      case Close(_) => PerLed(lights)
      case _ => Solid(Black)
    }

    /** `__eq__`: the same class, and then the attributes that class compares. */
    predicate Equals(other: LedState)
      reads this, other
    {
      && SameClass(kind, other.kind)
      && match kind
         case Loop(c) => c == other.kind.rgbw
         case Progress(c, p) => c == other.kind.color && p == other.kind.percentage
         case Breath(c) => c == other.kind.rgbw
         case StaticColor(_) => Initial() == other.Initial()
         case Close(c) => c == other.kind.color
         case _ => true
    }

    /** `LedState()`. */
    constructor (length: nat)
      ensures Valid() && kind == Base && this.length == length && index == 0 && lights == []
      ensures Initial() == Solid(Black)
    {
      kind, this.length, bright, ring, index, lights := Base, length, [], [], 0, [];
    }

    /** `Joy()`; a ring of no LEDs makes the interval a division by zero. */
    constructor Joy(length: nat)
      requires length >= 1
      ensures Valid() && kind == Kind.Joy && this.length == length && index == 0 && lights == []
      ensures Initial() == Solid(Black)
    {
      kind, this.length, index, lights := Kind.Joy, length, 0, [];
      bright, ring := BrightTable(length), [];
    }

    constructor Loop(length: nat, rgbw: string)
      requires length >= 1
      ensures Valid() && kind == Kind.Loop(rgbw) && this.length == length && index == 0 && lights == []
      ensures Initial() == Solid(Black)
    {
      kind, this.length, index, lights := Kind.Loop(rgbw), length, 0, [];
      bright, ring := [], LoopTable(length, rgbw);
    }

    constructor Progress(length: nat, color: Color, percentage: real)
      ensures Valid() && kind == Kind.Progress(color, percentage) && this.length == length
      ensures index == 0 && lights == []
      ensures Initial() == PerLed(Repeat(color, LitCount(percentage, length)))
    {
      kind, this.length, bright, ring, index, lights := Kind.Progress(color, percentage), length, [], [], 0, [];
    }

    constructor Breath(length: nat, rgbw: string)
      requires length >= 1
      ensures Valid() && kind == Kind.Breath(rgbw) && this.length == length && index == 0 && lights == []
      ensures Initial() == Solid(Black)
    {
      kind, this.length, index, lights := Kind.Breath(rgbw), length, 0, [];
      bright, ring := BrightTable(length), [];
    }

    constructor StaticColor(length: nat, color: Color)
      ensures Valid() && kind == Kind.StaticColor(color) && this.length == length
      ensures index == 0 && lights == []
      ensures Initial() == Solid(color)
    {
      kind, this.length, bright, ring, index, lights := Kind.StaticColor(color), length, [], [], 0, [];
    }

    constructor Close(length: nat, color: Color)
      ensures Valid() && kind == Kind.Close(color) && this.length == length
      ensures index == 0 && lights == Repeat(color, length)
      ensures Initial() == PerLed(Repeat(color, length))
    {
      kind, this.length, bright, ring, index := Kind.Close(color), length, [], [], 0;
      lights := Repeat(color, length);
    }

    /** `get_next_color`: a periodic state shows the frame at its index and
        steps the index round; `Close` switches off its last lights LED, or
        shows black once none is left; the others give `None`. */
    method GetNextColor() returns (next: Option<LedWrite>)
      requires Valid()
      modifies this
      ensures Valid()
      ensures Periodic(kind) ==>
        && next == Some(Frame(kind, length, old(index)))
        && index == (old(index) + 1) % Period(kind, length)
        && lights == old(lights)
      ensures kind.Close? ==>
        && index == old(index)
        && (old(lights) == [] ==> next == Some(Solid(Black)) && lights == [])
        && (old(lights) != [] ==> lights == old(lights)[..|old(lights)| - 1] && next == Some(PerLed(lights)))
      ensures !Animated(kind) ==> next == None && index == old(index) && lights == old(lights)
    {
      match kind
      case Joy =>
        var b := bright[index];
        next := Some(Solid(Levels(map["r" := b, "g" := b])));
        index := (index + 1) % |bright|;
      case Breath(c) =>
        next := Some(Solid(Levels(map[c := bright[index]])));
        index := (index + 1) % |bright|;
      case Loop(c) =>
        LoopWindow(length, c, index);
        next := Some(PerLed(ring[index..index + length]));
        index := (index + 1) % length;
      case Close(c) =>
        if lights != [] {
          lights := lights[..|lights| - 1];
          next := Some(PerLed(lights));
        } else {
          next := Some(Solid(Black));
        }
      case _ =>
        next := None;
    }
  }

  /** Equality of states is equality of what their classes compare: class
      and constructor arguments, never the animation's position. */
  lemma EqualsIsSameKind(a: LedState, b: LedState)
    ensures a.Equals(b) <==> a.kind == b.kind
  {
  }

  lemma EqualsIsEquivalence(a: LedState, b: LedState, c: LedState)
    ensures a.Equals(a)
    ensures a.Equals(b) ==> b.Equals(a)
    ensures a.Equals(b) && b.Equals(c) ==> a.Equals(c)
  {
    EqualsIsSameKind(a, a);
    EqualsIsSameKind(a, b);
    EqualsIsSameKind(b, a);
    EqualsIsSameKind(b, c);
    EqualsIsSameKind(a, c);
  }

  /** The LED driver: the installed state and the log of `led.set` calls. */
  class EvaLed {
    const length: nat
    var state: LedState
    /** Every `led.set` argument so far, oldest first. */
    var writes: seq<LedWrite>

    ghost predicate Valid()
      reads this, state
    {
      state.length == length && state.Valid()
    }

    /** `EvaLed()`: installs static black and writes it. */
    constructor (length: nat)
      ensures Valid() && fresh(state) && this.length == length
      ensures state.kind == StaticColor(Black) && writes == [Solid(Black)]
    {
      this.length := length;
      state := new LedState.StaticColor(length, Black);
      writes := [Solid(Black)];
    }

    /** `set`: a state equal to the installed one changes nothing; any other
        is installed and its initial colours written. */
    method Set(s: LedState)
      requires Valid() && s.Valid() && s.length == length
      modifies this
      ensures Valid() && state.Equals(s)
      ensures old(state.Equals(s)) ==> state == old(state) && writes == old(writes)
      ensures !old(state.Equals(s)) ==> state == s && writes == old(writes) + [s.Initial()]
    {
      if !state.Equals(s) {
        state := s;
        writes := writes + [state.Initial()];
      }
      EqualsIsEquivalence(state, s, s);
    }

    /** Setting the same state twice is setting it once. */
    method SetTwice(s: LedState)
      requires Valid() && s.Valid() && s.length == length
      modifies this
      ensures Valid() && state.Equals(s)
      ensures old(state.Equals(s)) ==> state == old(state) && writes == old(writes)
      ensures !old(state.Equals(s)) ==> state == s && writes == old(writes) + [s.Initial()]
    {
      Set(s);
      Set(s);
    }

    /** The installed state and the log after `j` ticks from index `i0`,
        `lit0` lit LEDs and log `w0`. */
    ghost predicate Ticked(i0: nat, lit0: nat, w0: seq<LedWrite>, j: nat)
      reads this, state
    {
      && Valid()
      && (Periodic(state.kind) ==>
            && state.index == (i0 + j) % Period(state.kind, length)
            && writes == w0 + Cycle(state.kind, length, i0, j))
      && (state.kind.Close? ==>
            && |state.lights| == (if j < lit0 then lit0 - j else 0)
            && writes == w0 + Drain(state.kind.color, lit0, j))
      && (!Animated(state.kind) ==> writes == w0 && state.index == i0)
    }

    /** `_run` until the stop event is seen after `steps` ticks: each tick
        writes whatever `get_next_color` returns unless it is `None`. */
    method Run(steps: nat)
      requires Valid()
      modifies this, state
      ensures state == old(state)
      ensures Ticked(old(state.index), |old(state.lights)|, old(writes), steps)
    {
      var j := 0;
      if Periodic(state.kind) {
        ModUnique(state.index, Period(state.kind, length), 0, state.index);
      }
      assert writes + [] == writes;
      while j < steps
        invariant j <= steps && state == old(state)
        invariant Ticked(old(state.index), |old(state.lights)|, old(writes), j)
      {
        Counted(old(state.index), |old(state.lights)|, old(writes), j);
        j := j + 1;
      }
    }

    /** A tick moves the log and the state from `j` ticks to `j + 1`. */
    method Counted(ghost i0: nat, ghost lit0: nat, ghost w0: seq<LedWrite>, ghost j: nat)
      requires Ticked(i0, lit0, w0, j)
      modifies this, state
      ensures state == old(state) && Ticked(i0, lit0, w0, j + 1)
    {
      if Periodic(state.kind) {
        ModSucc(i0 + j, Period(state.kind, length));
      }
      Tick();
      if Periodic(state.kind) {
        assert w0 + Cycle(state.kind, length, i0, j) + [Frame(state.kind, length, (i0 + j) % Period(state.kind, length))]
          == w0 + Cycle(state.kind, length, i0, j + 1);
      } else if state.kind.Close? {
        assert w0 + Drain(state.kind.color, lit0, j) + [Drain(state.kind.color, lit0, j + 1)[j]]
          == w0 + Drain(state.kind.color, lit0, j + 1);
      }
    }

    /** One pass of the `_run` loop body. */
    method Tick()
      requires Valid()
      modifies this, state
      ensures Valid() && state == old(state)
      ensures Periodic(state.kind) ==>
        && state.index == (old(state.index) + 1) % Period(state.kind, length)
        && writes == old(writes) + [Frame(state.kind, length, old(state.index))]
      ensures state.kind.Close? ==>
        && |state.lights| == (if |old(state.lights)| > 0 then |old(state.lights)| - 1 else 0)
        && writes == old(writes) + [if |old(state.lights)| > 0 then PerLed(Repeat(state.kind.color, |old(state.lights)| - 1)) else Solid(Black)]
      ensures !Animated(state.kind) ==> writes == old(writes) && state.index == old(state.index)
    {
      var next := state.GetNextColor();
      if next.Some? {
        writes := writes + [next.value];
      }
    }

    /** `stop`: after the loop ends the ring is switched to black. */
    method Stop()
      requires Valid()
      modifies this`writes
      ensures Valid() && state == old(state)
      ensures writes == old(writes) + [Solid(Black)]
    {
      writes := writes + [Solid(Black)];
    }
  }
}
