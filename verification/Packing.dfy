/** How tuples, options, records and arrays are laid out in a word, and how they are taken apart again. */
module Packing {
  import opened PowersOfTwo

  /** Bits, the most significant first. */
  type Word = seq<bool>

  datatype Ty = Bits(n: nat) | Bool | Tuple(items: seq<Ty>) | Record(fields: seq<Ty>) | Array(elem: Ty, size: nat) | Option(inner: Ty)

  function BitWidth(ty: Ty): nat
    decreases ty
  {
    match ty
    case Bits(n) => n
    case Bool => 1
    case Tuple(items) => Sum(Widths(items))
    case Record(fields) => Sum(Widths(fields))
    case Array(elem, size) => BitWidth(elem) * size
    case Option(inner) => 1 + BitWidth(inner)
  }

  function Widths(tys: seq<Ty>): (ws: seq<nat>)
    ensures |ws| == |tys| && forall i | 0 <= i < |tys| :: ws[i] == BitWidth(tys[i])
    decreases tys
  {
    seq(|tys|, i requires 0 <= i < |tys| => BitWidth(tys[i]))
  }

  /** The widths from component `i` on. */
  function SumFrom(ws: seq<nat>, i: nat): nat
    requires i <= |ws|
    decreases |ws| - i
  {
    if i == |ws| then 0 else ws[i] + SumFrom(ws, i + 1)
  }

  function Sum(ws: seq<nat>): nat {
    SumFrom(ws, 0)
  }

  // ---------------------------------------------------------------------------
  // Words
  // ---------------------------------------------------------------------------

  /** `n` bits of a word, from bit `lo` up. */
  function At(w: Word, lo: nat, n: nat): Word
    requires lo + n <= |w|
  {
    w[|w| - lo - n..|w| - lo]
  }

  /** `w`, `w[i]` or `w[hi:lo]` */
  datatype Slice = Whole | Bit(i: nat) | Part(hi: nat, lo: nat)

  predicate InRange(s: Slice, width: nat) {
    match s
    case Whole => true
    case Bit(i) => i < width
    case Part(hi, lo) => lo <= hi < width
  }

  function Select(w: Word, s: Slice): Word
    requires InRange(s, |w|)
  {
    match s
    case Whole => w
    case Bit(i) => At(w, i, 1)
    case Part(hi, lo) => At(w, lo, hi - lo + 1)
  }

  function CatFrom(parts: seq<Word>, i: nat): Word
    requires i <= |parts|
    decreases |parts| - i
  {
    if i == |parts| then [] else parts[i] + CatFrom(parts, i + 1)
  }

  /** Concatenation, the first part in the highest bits. */
  function Cat(parts: seq<Word>): Word {
    CatFrom(parts, 0)
  }

  function Lengths(parts: seq<Word>): (ws: seq<nat>)
    ensures |ws| == |parts| && forall i | 0 <= i < |parts| :: ws[i] == |parts[i]|
  {
    seq(|parts|, i requires 0 <= i < |parts| => |parts[i]|)
  }

  lemma {:induction false} CatLength(parts: seq<Word>, i: nat)
    requires i <= |parts|
    ensures |CatFrom(parts, i)| == SumFrom(Lengths(parts), i)
    decreases |parts| - i
  {
    if i < |parts| {
      CatLength(parts, i + 1);
    }
  }

  /** The bit at which part `i` starts: the widths of the parts after it. */
  function Offset(ws: seq<nat>, i: nat): nat
    requires i < |ws|
  {
    SumFrom(ws, i + 1)
  }

  /** Part `i` of a concatenation is where its offset says. */
  lemma {:induction false} PartAt(parts: seq<Word>, from: nat, i: nat)
    requires from <= i < |parts|
    ensures Offset(Lengths(parts), i) + |parts[i]| <= |CatFrom(parts, from)|
    ensures At(CatFrom(parts, from), Offset(Lengths(parts), i), |parts[i]|) == parts[i]
    decreases i - from
  {
    CatLength(parts, from + 1);
    if from < i {
      PartAt(parts, from + 1, i);
    }
  }

  /** The slices of a tuple lie side by side, the first at the top and the last at bit 0. */
  lemma SlicesTile(ws: seq<nat>, i: nat)
    requires i < |ws|
    ensures if i + 1 < |ws| then Offset(ws, i) == Offset(ws, i + 1) + ws[i + 1] else Offset(ws, i) == 0
    ensures Offset(ws, 0) + ws[0] == Sum(ws)
  {
  }

  /** So two of them never share a bit, and every bit is in one of them. */
  lemma {:induction false} SlicesDisjoint(ws: seq<nat>, i: nat, j: nat)
    requires i < j < |ws|
    ensures Offset(ws, j) + ws[j] <= Offset(ws, i)
    decreases j - i
  {
    SlicesTile(ws, i);
    if i + 1 < j {
      SlicesDisjoint(ws, i + 1, j);
    }
  }

  lemma {:induction false} SlicesCover(ws: seq<nat>, from: nat, bit: nat) returns (i: nat)
    requires from <= |ws| && bit < SumFrom(ws, from)
    ensures from <= i < |ws| && Offset(ws, i) <= bit < Offset(ws, i) + ws[i]
    decreases |ws| - from
  {
    if Offset(ws, from) <= bit {
      i := from;
    } else {
      i := SlicesCover(ws, from + 1, bit);
    }
  }

  // ---------------------------------------------------------------------------
  // Destructuring
  // ---------------------------------------------------------------------------

  /** The slice that stands for component `i`. */
  function SliceOf(ws: seq<nat>, i: nat): Slice
    requires i < |ws| && ws[i] > 0
  {
    if Sum(ws) == ws[i] && |ws| == 1 then Whole
    else if ws[i] == 1 then Bit(Offset(ws, i))
    else Part(Offset(ws, i) + ws[i] - 1, Offset(ws, i))
  }

  /** The emitter walks the components from the last, with a running offset, and sorts the slices back. */
  method ComputeSlices(ws: seq<nat>) returns (slices: seq<Slice>)
    requires forall i | 0 <= i < |ws| :: ws[i] > 0
    ensures |slices| == |ws| && forall i | 0 <= i < |ws| :: slices[i] == SliceOf(ws, i)
  {
    slices := [];
    var bitOffset := 0;
    var total := Total(ws);
    var i := |ws|;
    while i > 0
      invariant 0 <= i <= |ws| && |slices| == |ws| - i
      invariant bitOffset == SumFrom(ws, i)
      invariant forall k | i <= k < |ws| :: slices[k - i] == SliceOf(ws, k)
    {
      i := i - 1;
      var w := ws[i];
      var slice := if total == w && |ws| == 1 then Whole
                   else if w == 1 then Bit(bitOffset)
                   else Part(bitOffset + w - 1, bitOffset);
      slices := [slice] + slices;
      bitOffset := bitOffset + w;
    }
  }

  method Total(ws: seq<nat>) returns (total: nat)
    ensures total == Sum(ws)
  {
    total := 0;
    for i := 0 to |ws|
      invariant total + SumFrom(ws, i) == Sum(ws)
    {
      total := total + ws[i];
    }
  }

  lemma PartSelected(parts: seq<Word>, i: nat)
    requires i < |parts| && |parts[i]| > 0
    ensures InRange(SliceOf(Lengths(parts), i), |Cat(parts)|)
    ensures Select(Cat(parts), SliceOf(Lengths(parts), i)) == parts[i]
  {
    PartAt(parts, 0, i);
    CatLength(parts, 0);
    OneWidth(Lengths(parts));
    hide SumFrom, Sum, CatFrom, Offset, Lengths;
  }

  lemma OneWidth(ws: seq<nat>)
    ensures |ws| == 1 ==> Offset(ws, 0) == 0 && Sum(ws) == ws[0]
  {
  }

  /** A value; `Nothing` keeps the data bits that come with an empty queue. */
  datatype Value = Leaf(bits: Word) | Items(items: seq<Value>) | Just(value: Value) | Nothing(junk: Word)

  /** A value of a type whose components all have bits. */
  predicate HasType(v: Value, ty: Ty)
    decreases v
  {
    match ty
    case Bits(n) => v.Leaf? && |v.bits| == n > 0
    case Bool => v.Leaf? && |v.bits| == 1
    case Tuple(items) => v.Items? && items != [] && HaveTypes(v.items, items)
    case Record(fields) => v.Items? && fields != [] && HaveTypes(v.items, fields)
    case Array(_, _) => v.Leaf? && |v.bits| == BitWidth(ty) > 0
    case Option(inner) => (v.Just? && HasType(v.value, inner)) || (v.Nothing? && |v.junk| == BitWidth(inner))
  }

  predicate HaveTypes(vs: seq<Value>, tys: seq<Ty>)
    decreases vs
  {
    |vs| == |tys| && forall i | 0 <= i < |vs| :: HasType(vs[i], tys[i])
  }

  /** The packed word: the first component of a tuple or a record is in the highest bits. An array is a
      word of its own, below. */
  function Pack(v: Value): Word
    decreases v
  {
    match v
    case Leaf(bits) => bits
    case Items(items) => Cat(PackAll(items))
    case Just(value) => [true] + Pack(value)
    case Nothing(junk) => [false] + junk
  }

  function PackAll(vs: seq<Value>): (parts: seq<Word>)
    ensures |parts| == |vs| && forall i | 0 <= i < |vs| :: parts[i] == Pack(vs[i])
    decreases vs
  {
    seq(|vs|, i requires 0 <= i < |vs| => Pack(vs[i]))
  }

  lemma {:induction false} PackedWidth(v: Value, ty: Ty)
    requires HasType(v, ty)
    ensures |Pack(v)| == BitWidth(ty) > 0
    decreases v
  {
    match v
    case Items(items) =>
      var tys := if ty.Tuple? then ty.items else ty.fields;
      PackedWidths(items, tys);
      CatLength(PackAll(items), 0);
      PackedWidth(items[0], tys[0]);
    case Just(value) => PackedWidth(value, ty.inner);
    case _ =>
  }

  lemma {:induction false} PackedWidths(vs: seq<Value>, tys: seq<Ty>)
    requires HaveTypes(vs, tys)
    ensures Lengths(PackAll(vs)) == Widths(tys) && forall i | 0 <= i < |vs| :: Widths(tys)[i] > 0
    decreases vs
  {
    forall i | 0 <= i < |vs| ensures |PackAll(vs)[i]| == Widths(tys)[i] > 0 {
      PackedWidth(vs[i], tys[i]);
    }
  }

  // ---------------------------------------------------------------------------
  // Patterns
  // ---------------------------------------------------------------------------

  datatype Pattern = Bind(name: string) | TuplePattern(subs: seq<Pattern>) | Wildcard

  /** A pattern that takes a type apart component by component. */
  predicate Shape(p: Pattern, ty: Ty)
    decreases p
  {
    p.TuplePattern? ==>
      ty.Tuple? && |p.subs| == |ty.items| && forall i | 0 <= i < |p.subs| :: Shape(p.subs[i], ty.items[i])
  }

  /** What the emitter binds each name to: slices of slices of the word. */
  function BindWord(p: Pattern, w: Word, ty: Ty, env: map<string, Word>): map<string, Word>
    requires Shape(p, ty) && |w| == BitWidth(ty) && AllPositive(ty)
    decreases p, 0
  {
    match p
    case Bind(x) => env[x := w]
    case TuplePattern(subs) => BindParts(subs, w, ty.items, 0, env)
    case Wildcard => env
  }

  predicate AllPositive(ty: Ty)
    decreases ty
  {
    BitWidth(ty) > 0 && (ty.Tuple? ==> forall i | 0 <= i < |ty.items| :: AllPositive(ty.items[i]))
  }

  function BindParts(subs: seq<Pattern>, w: Word, tys: seq<Ty>, i: nat, env: map<string, Word>): map<string, Word>
    requires |subs| == |tys| && i <= |subs| && |w| == Sum(Widths(tys))
    requires forall k | 0 <= k < |subs| :: Shape(subs[k], tys[k]) && AllPositive(tys[k])
    decreases subs, |subs| - i
  {
    if i == |subs| then env
    else
      assert AllPositive(tys[i]);
      SliceFits(Widths(tys), i, w);
      var part := Select(w, SliceOf(Widths(tys), i));
      BindParts(subs, w, tys, i + 1, BindWord(subs[i], part, tys[i], env))
  }

  lemma SliceFits(ws: seq<nat>, i: nat, w: Word)
    requires i < |ws| && ws[i] > 0 && |w| == Sum(ws)
    ensures Offset(ws, i) + ws[i] <= |w|
    ensures InRange(SliceOf(ws, i), |w|) && |Select(w, SliceOf(ws, i))| == ws[i]
  {
    SliceBelow(ws, i);
  }

  lemma {:induction false} SliceBelow(ws: seq<nat>, i: nat)
    requires i < |ws|
    ensures Offset(ws, i) + ws[i] <= Sum(ws)
  {
    SlicesTile(ws, i);
    if i > 0 {
      SlicesDisjoint(ws, 0, i);
      SlicesTile(ws, 0);
    }
  }

  /** What the names mean: the components of the value, packed. */
  function BindValue(p: Pattern, v: Value, env: map<string, Word>): map<string, Word>
    decreases p, 0
  {
    match p
    case Bind(x) => env[x := Pack(v)]
    case TuplePattern(subs) => if v.Items? && |v.items| == |subs| then BindItems(subs, v.items, 0, env) else env
    case Wildcard => env
  }

  function BindItems(subs: seq<Pattern>, vs: seq<Value>, i: nat, env: map<string, Word>): map<string, Word>
    requires |subs| == |vs| && i <= |subs|
    decreases subs, |subs| - i
  {
    if i == |subs| then env else BindItems(subs, vs, i + 1, BindValue(subs[i], vs[i], env))
  }

  lemma {:induction false} TypedIsPositive(v: Value, ty: Ty)
    requires HasType(v, ty)
    ensures AllPositive(ty)
    decreases v
  {
    PackedWidth(v, ty);
    if ty.Tuple? {
      forall i | 0 <= i < |ty.items| ensures AllPositive(ty.items[i]) {
        TypedIsPositive(v.items[i], ty.items[i]);
      }
    }
  }

  /** Main result. For every type and every nesting of patterns, destructuring the packed word binds each
      name to its own component. */
  lemma {:induction false} DestructuringRoundTrip(p: Pattern, v: Value, ty: Ty, env: map<string, Word>)
    requires Shape(p, ty) && HasType(v, ty)
    ensures |Pack(v)| == BitWidth(ty) && AllPositive(ty)
    ensures BindWord(p, Pack(v), ty, env) == BindValue(p, v, env)
    decreases p, 0
  {
    PackedWidth(v, ty);
    TypedIsPositive(v, ty);
    if p.TuplePattern? {
      PartsRoundTrip(p.subs, v.items, ty.items, 0, env);
    }
  }

  lemma {:induction false} PartsRoundTrip(subs: seq<Pattern>, vs: seq<Value>, tys: seq<Ty>, i: nat, env: map<string, Word>)
    requires |subs| == |tys| && HaveTypes(vs, tys) && i <= |subs|
    requires forall k | 0 <= k < |subs| :: Shape(subs[k], tys[k]) && AllPositive(tys[k])
    ensures |Cat(PackAll(vs))| == Sum(Widths(tys))
    ensures BindParts(subs, Cat(PackAll(vs)), tys, i, env) == BindItems(subs, vs, i, env)
    decreases subs, |subs| - i
  {
    PackedWidths(vs, tys);
    CatLength(PackAll(vs), 0);
    if i < |subs| {
      PartSelected(PackAll(vs), i);
      DestructuringRoundTrip(subs[i], vs[i], tys[i], env);
      PartsRoundTrip(subs, vs, tys, i + 1, BindValue(subs[i], vs[i], env));
    }
  }

  // ---------------------------------------------------------------------------
  // Options
  // ---------------------------------------------------------------------------

  /** `Some(p)` against the word `{valid, data}`: a tuple pattern is sliced straight from it, any other
      pattern gets the data. */
  function BindSome(p: Pattern, w: Word, inner: Ty, env: map<string, Word>): map<string, Word>
    requires Shape(p, inner) && |w| == 1 + BitWidth(inner) && AllPositive(inner)
  {
    if p.TuplePattern? then BindSomeParts(p.subs, w, inner.items, 0, env)
    else BindWord(p, w[1..], inner, env)
  }

  function SomeSlice(ws: seq<nat>, i: nat): Slice
    requires i < |ws| && ws[i] > 0
  {
    if ws[i] == 1 then Bit(Offset(ws, i)) else Part(Offset(ws, i) + ws[i] - 1, Offset(ws, i))
  }

  function BindSomeParts(subs: seq<Pattern>, w: Word, tys: seq<Ty>, i: nat, env: map<string, Word>): map<string, Word>
    requires |subs| == |tys| && i <= |subs| && |w| == 1 + Sum(Widths(tys))
    requires forall k | 0 <= k < |subs| :: Shape(subs[k], tys[k]) && AllPositive(tys[k])
    decreases |subs| - i
  {
    if i == |subs| then env
    else
      assert AllPositive(tys[i]);
      SliceBelow(Widths(tys), i);
      var part := Select(w, SomeSlice(Widths(tys), i));
      BindSomeParts(subs, w, tys, i + 1, BindWord(subs[i], part, tys[i], env))
  }

  /** The emitted test of the arm: the top bit. */
  function ValidBit(w: Word): bool
    requires |w| > 0
  {
    Select(w, Bit(|w| - 1))[0]
  }

  lemma SameSlice(ws: seq<nat>, i: nat, w: Word, top: bool)
    requires i < |ws| && ws[i] > 0 && |w| == Sum(ws)
    ensures InRange(SliceOf(ws, i), |w|) && InRange(SomeSlice(ws, i), |w| + 1)
    ensures Select([top] + w, SomeSlice(ws, i)) == Select(w, SliceOf(ws, i))
  {
    SliceFits(ws, i, w);
    SlicesTile(ws, i);
    AtTail(w, top, Offset(ws, i), ws[i]);
    OneWidth(ws);
  }

  lemma AtTail(w: Word, top: bool, lo: nat, n: nat)
    requires lo + n <= |w|
    ensures At([top] + w, lo, n) == At(w, lo, n)
  {
  }

  lemma {:induction false} SomePartsSame(subs: seq<Pattern>, w: Word, top: bool, tys: seq<Ty>, i: nat, env: map<string, Word>)
    requires |subs| == |tys| && i <= |subs| && |w| == Sum(Widths(tys))
    requires forall k | 0 <= k < |subs| :: Shape(subs[k], tys[k]) && AllPositive(tys[k])
    ensures BindSomeParts(subs, [top] + w, tys, i, env) == BindParts(subs, w, tys, i, env)
    decreases |subs| - i
  {
    if i < |subs| {
      SameSlice(Widths(tys), i, w, top);
      var part := Select(w, SliceOf(Widths(tys), i));
      SliceFits(Widths(tys), i, w);
      SomePartsSame(subs, w, top, tys, i + 1, BindWord(subs[i], part, tys[i], env));
    }
  }

  /** A packed option: the test tells whether there is a value, and `Some(p)` binds the names to its components. */
  lemma OptionRoundTrip(p: Pattern, v: Value, inner: Ty, env: map<string, Word>)
    requires Shape(p, inner) && HasType(v, Option(inner))
    ensures |Pack(v)| == 1 + BitWidth(inner) && (ValidBit(Pack(v)) <==> v.Just?)
    ensures v.Just? ==> AllPositive(inner) && BindSome(p, Pack(v), inner, env) == BindValue(p, v.value, env)
  {
    PackedWidth(v, Option(inner));
    if v.Just? {
      DestructuringRoundTrip(p, v.value, inner, env);
      if p.TuplePattern? {
        SomePartsSame(p.subs, Pack(v.value), true, inner.items, 0, env);
      }
    }
  }

  // ---------------------------------------------------------------------------
  // Records in the Chisel backend
  // ---------------------------------------------------------------------------

  /** `pad(n)`: zeros in front, and nothing is ever cut off. */
  function Pad(w: Word, n: nat): (r: Word)
    ensures |r| == if |w| < n then n else |w|
  {
    if |w| < n then seq(n - |w|, _ => false) + w else w
  }

  /** The parts of a record: a field that is not given is zero. */
  function RecordParts(fields: seq<Value>, ws: seq<nat>, given: seq<bool>): (parts: seq<Word>)
    requires |fields| == |ws| == |given|
    ensures |parts| == |ws|
  {
    seq(|ws|, i requires 0 <= i < |ws| => if given[i] then Pad(Pack(fields[i]), ws[i]) else seq(ws[i], _ => false))
  }

  /** The field's slice of the record word: a running position down from the top. */
  method FieldSlice(ws: seq<nat>, field: nat) returns (slice: Slice)
    requires field < |ws| && ws[field] > 0
    ensures slice == SomeSlice(ws, field)
  {
    var bitPos := Total(ws);
    for i := 0 to |ws|
      invariant i <= field && bitPos == SumFrom(ws, i)
    {
      bitPos := bitPos - ws[i];
      if i == field {
        return if ws[i] == 1 then Bit(bitPos) else Part(bitPos + ws[i] - 1, bitPos);
      }
    }
    assert false;
  }

  /** The number a word stands for. */
  function Number(w: Word): nat {
    if w == [] then 0 else (if w[0] then Pow2(|w| - 1) else 0) + Number(w[1..])
  }

  lemma {:induction false} NumberBelow(w: Word)
    ensures Number(w) < Pow2(|w|)
  {
    if w != [] {
      NumberBelow(w[1..]);
    }
  }

  lemma {:induction false} PadKeepsNumber(w: Word, n: nat)
    ensures Number(Pad(w, n)) == Number(w)
    decreases n
  {
    if |w| < n {
      assert Pad(w, n)[1..] == Pad(w, n - 1);
      PadKeepsNumber(w, n - 1);
    }
  }

  function Ones(n: nat): Word {
    seq(n, _ => true)
  }

  lemma {:induction false} OnesAreLarge(n: nat)
    ensures Number(Ones(n)) + 1 == Pow2(n)
  {
    if n > 0 {
      assert Ones(n)[1..] == Ones(n - 1);
      OnesAreLarge(n - 1);
    }
  }

  /** The number read from field `i` is the one put there, or zero if none was given. */
  predicate ReadsBack(fields: seq<Value>, ws: seq<nat>, given: seq<bool>, i: nat)
    requires |fields| == |ws| == |given| && i < |ws| && ws[i] > 0
  {
    var word := Cat(RecordParts(fields, ws, given));
    && InRange(SomeSlice(ws, i), |word|)
    && Number(Select(word, SomeSlice(ws, i))) == if given[i] then Number(Pack(fields[i])) else 0
  }

  predicate HaveLengths(fields: seq<Value>, lens: seq<nat>) {
    |fields| == |lens| && forall i | 0 <= i < |lens| :: |Pack(fields[i])| == lens[i]
  }

  lemma FittingReadsBack(fields: seq<Value>, ws: seq<nat>, given: seq<bool>, i: nat)
    requires |fields| == |ws| == |given| && forall k | 0 <= k < |ws| :: ws[k] > 0
    requires forall k | 0 <= k < |ws| :: given[k] ==> |Pack(fields[k])| <= ws[k]
    requires i < |ws|
    ensures ReadsBack(fields, ws, given, i)
  {
    var parts := RecordParts(fields, ws, given);
    assert Lengths(parts) == ws;
    assert parts[i] == if given[i] then Pad(Pack(fields[i]), ws[i]) else Pad([], ws[i]);
    PadKeepsNumber(if given[i] then Pack(fields[i]) else [], ws[i]);
    hide Pad, RecordParts, Cat, Offset, Pack, Number;
    PartAt(parts, 0, i);
    assert Number([]) == 0 by { NumberBelow([]); }
  }

  lemma ReadIsBelow(fields: seq<Value>, ws: seq<nat>, given: seq<bool>, i: nat)
    requires |fields| == |ws| == |given| && i < |ws| && ws[i] > 0 && given[i]
    requires ReadsBack(fields, ws, given, i)
    ensures Number(Pack(fields[i])) < Pow2(ws[i])
  {
    hide RecordParts, Cat, Offset, Pack, Number, Pow2;
    NumberBelow(Select(Cat(RecordParts(fields, ws, given)), SomeSlice(ws, i)));
  }

  lemma {:induction false} Pow2Grows(a: nat, b: nat)
    requires a < b
    ensures 2 * Pow2(a) <= Pow2(b)
    decreases b
  {
    if a + 1 < b {
      Pow2Grows(a, b - 1);
    }
  }

  /** For given values of given lengths, whatever their bits, every field of a record reads back the number put
      there, exactly when no value is longer than its field. */
  lemma FieldsReadBackIff(lens: seq<nat>, ws: seq<nat>, given: seq<bool>)
    requires |lens| == |ws| == |given| && forall i | 0 <= i < |ws| :: ws[i] > 0
    ensures (forall fields: seq<Value>, i: nat | HaveLengths(fields, lens) && i < |ws| :: ReadsBack(fields, ws, given, i))
            <==> (forall i | 0 <= i < |ws| :: given[i] ==> lens[i] <= ws[i])
  {
    if forall i | 0 <= i < |ws| :: given[i] ==> lens[i] <= ws[i] {
      forall fields: seq<Value>, i: nat | HaveLengths(fields, lens) && i < |ws| ensures ReadsBack(fields, ws, given, i) {
        FittingReadsBack(fields, ws, given, i);
      }
    } else {
      var i :| 0 <= i < |ws| && given[i] && lens[i] > ws[i];
      var fields := seq(|lens|, k requires 0 <= k < |lens| => Leaf(Ones(lens[k])));
      assert HaveLengths(fields, lens);
      OnesAreLarge(lens[i]);
      Pow2Grows(ws[i], lens[i]);
      if ReadsBack(fields, ws, given, i) {
        ReadIsBelow(fields, ws, given, i);
      }
    }
  }

  // ---------------------------------------------------------------------------
  // Arrays
  // ---------------------------------------------------------------------------

  /** `a[i * W +: W]` */
  function Get(a: Word, i: nat, w: nat): Word
    requires (i + 1) * w <= |a|
  {
    MulStep(i, w);
    At(a, i * w, w)
  }

  /** The update: a copy with the part-select overwritten; outside the array it changes nothing. */
  function Set(a: Word, i: nat, w: nat, x: Word): (r: Word)
    requires |x| == w
    ensures |r| == |a|
  {
    MulStep(i, w);
    if (i + 1) * w <= |a| then a[..|a| - i * w - w] + x + a[|a| - i * w..] else a
  }

  lemma MulStep(i: nat, w: nat)
    ensures (i + 1) * w == i * w + w && i * w >= 0
  {
  }

  lemma {:induction false} MulOrder(i: nat, j: nat, w: nat)
    requires i < j
    ensures i * w + w <= j * w
    decreases j
  {
    MulStep(j - 1, w);
    if i + 1 < j {
      MulOrder(i, j - 1, w);
    }
  }

  /** The elements of an array below `n`, the last in the highest bits. */
  function Elements(a: Word, w: nat, n: nat): Word
    requires n * w <= |a|
  {
    if n == 0 then []
    else
      MulStep(n - 1, w);
      Get(a, n - 1, w) + Elements(a, w, n - 1)
  }

  lemma {:induction false} ElementsAreTail(a: Word, w: nat, n: nat)
    requires n * w <= |a|
    ensures Elements(a, w, n) == a[|a| - n * w..]
  {
    if n > 0 {
      MulStep(n - 1, w);
      ElementsAreTail(a, w, n - 1);
    }
  }

  /** A word of an array's width is its elements and nothing else: exactly the indices below the size have one. */
  lemma ArrayIsItsElements(elem: Ty, size: nat, a: Word, i: nat)
    requires |a| == BitWidth(Array(elem, size)) && BitWidth(elem) > 0
    ensures (i + 1) * BitWidth(elem) <= |a| <==> i < size
    ensures Elements(a, BitWidth(elem), size) == a
  {
    var w := BitWidth(elem);
    assert size * w == w * size;
    ElementsAreTail(a, w, size);
    MulStep(i, w);
    if i < size {
      MulOrder(i, size, w);
    } else if size < i {
      MulOrder(size, i, w);
    }
  }

  /** An array's elements are independent of each other. */
  lemma ArrayRoundTrip(a: Word, i: nat, j: nat, w: nat, x: Word)
    requires |x| == w && (i + 1) * w <= |a| && (j + 1) * w <= |a|
    ensures Get(Set(a, i, w, x), j, w) == if i == j then x else Get(a, j, w)
  {
    MulStep(i, w);
    MulStep(j, w);
    if i < j {
      MulOrder(i, j, w);
    } else if j < i {
      MulOrder(j, i, w);
    }
  }
}
