/** The compiler's proof that a buffer is aligned as the matrix unit needs it,
    along chains of views down to an allocation. */
module HmxAlignment {
  import opened Status

  const HMX_ALIGNMENT: nat := 2048
  /** index values have 64 bits */
  const WORD: nat := 0x1_0000_0000_0000_0000

  /** A number known to the compiler, or one known only when the program runs. */
  datatype Index = Static(value: int) | Dynamic(id: nat)

  datatype Element = F16 | BF16 | F32 | I32 | I8 | Other(bytes: nat)

  datatype Layout = Strided(strides: seq<Index>) | Opaque(id: nat)

  /** A buffer value by its defining operation. */
  datatype Buffer =
    | AssumeAlignment(source: Buffer, alignment: nat)
    | Alloc(id: nat, declared: Option<nat>)
    | Alloca(id: nat, declared: Option<nat>)
    | MemAlloc(id: nat, alignment: nat)
    | Unknown(id: nat)
    | Cast(source: Buffer)
    | Collapse(source: Buffer)
    | Expand(source: Buffer)
    | SubView(source: Buffer, element: Element, layout: Layout, offsets: seq<Index>)

  /** What divides a number when read as unsigned and when read as signed. */
  datatype Divisibility = Divisibility(udiv: nat, sdiv: int)

  /** The divisibility analysis; no answer for values it does not model. */
  type Facts = nat -> Option<Divisibility>

  // ----- the analysis -----

  /** Remainder with the sign of the dividend. */
  function Rem(a: int, b: int): int
    requires b != 0
  {
    if a >= 0 then a % b else -((-a) % b)
  }

  function Abs(a: int): nat {
    if a >= 0 then a else -a
  }

  function Gcd(a: nat, b: nat): nat
    decreases b
  {
    if b == 0 then a else Gcd(b, a % b)
  }

  function ElementBytes(e: Element): nat {
    match e
    case F16 => 2
    case BF16 => 2
    case F32 => 4
    case I32 => 4
    case I8 => 1
    case Other(_) => 0
  }

  function Declared(b: Buffer): Option<nat> {
    match b
    case AssumeAlignment(_, a) => Some(a)
    case Alloc(_, a) => Some(if a.Some? then a.value else 0)
    case Alloca(_, a) => Some(if a.Some? then a.value else 0)
    case MemAlloc(_, a) => Some(a)
    case _ => None
  }

  function ViewSource(b: Buffer): Option<Buffer> {
    match b
    case Cast(s) => Some(s)
    case Collapse(s) => Some(s)
    case Expand(s) => Some(s)
    case SubView(s, _, _, _) => Some(s)
    case _ => None
  }

  function KnownMultiple(facts: Facts, id: nat, m: nat): bool
    requires m > 0
  {
    facts(id).Some? && (facts(id).value.udiv % m == 0 || Rem(facts(id).value.sdiv, m) == 0)
  }

  /** What the first `n` dimensions contribute to the byte offset, modulo
      `align`, if that can be proven. */
  function OffsetModulo(strides: seq<Index>, offsets: seq<Index>, bytes: nat, align: nat, facts: Facts, n: nat): Option<int>
    requires n <= |offsets| == |strides| && align > 0
  {
    if n == 0 then Some(0)
    else
      var front := OffsetModulo(strides, offsets, bytes, align, facts, n - 1);
      if front.None? || strides[n - 1].Dynamic? then None
      else
        var strideBytes := strides[n - 1].value * bytes;
        match offsets[n - 1]
        case Static(c) =>
          Some(Rem(front.value + Rem(Rem(c, align) * Rem(strideBytes, align), align), align))
        case Dynamic(id) =>
          GcdDivides(Abs(strideBytes), align);
          if KnownMultiple(facts, id, align / Gcd(Abs(strideBytes), align)) then front else None
  }

  function SubViewModulo(b: Buffer, align: nat, facts: Facts): Option<int>
    requires b.SubView? && (b.layout.Strided? ==> |b.offsets| == |b.layout.strides|) && align > 0
  {
    if b.layout.Opaque? || ElementBytes(b.element) == 0 then None
    else OffsetModulo(b.layout.strides, b.offsets, ElementBytes(b.element), align, facts, |b.offsets|)
  }

  /** Operations as the operation verifiers admit them. */
  ghost predicate WellTyped(b: Buffer) {
    match b
    case AssumeAlignment(s, a) => a > 0 && WellTyped(s)
    case Cast(s) => WellTyped(s)
    case Collapse(s) => WellTyped(s)
    case Expand(s) => WellTyped(s)
    case SubView(s, _, layout, offsets) => WellTyped(s) && (layout.Strided? ==> |offsets| == |layout.strides|)
    case _ => true
  }

  predicate Provides(b: Buffer, align: nat, facts: Facts)
    requires WellTyped(b) && align > 0
    decreases b
  {
    if Declared(b).Some? then
      Declared(b).value % align == 0
    else if !b.SubView? then
      ViewSource(b).Some? && Provides(ViewSource(b).value, align, facts)
    else
      Provides(b.source, align, facts) && SubViewModulo(b, align, facts) == Some(0)
  }

  // ----- the program when it runs -----

  /** Base addresses of storage, values of dynamic numbers, and whatever a
      layout without strides adds. */
  datatype Env = Env(base: nat -> int, number: nat -> int, shift: nat -> int)

  function ValueOf(i: Index, env: Env): int {
    match i
    case Static(c) => c
    case Dynamic(id) => env.number(id)
  }

  function ActualBytes(e: Element): nat {
    if e.Other? then e.bytes else ElementBytes(e)
  }

  /** The bytes the first `n` offsets of a subview skip. */
  function BytesSkipped(strides: seq<Index>, offsets: seq<Index>, bytes: nat, env: Env, n: nat): int
    requires n <= |offsets| == |strides|
  {
    if n == 0 then 0
    else
      BytesSkipped(strides, offsets, bytes, env, n - 1)
      + ValueOf(offsets[n - 1], env) * (ValueOf(strides[n - 1], env) * bytes)
  }

  /** Address of the first element. */
  ghost function Address(b: Buffer, env: Env): int
    requires WellTyped(b)
    decreases b
  {
    match b
    case AssumeAlignment(s, _) => Address(s, env)
    case Alloc(id, _) => env.base(id)
    case Alloca(id, _) => env.base(id)
    case MemAlloc(id, _) => env.base(id)
    case Unknown(id) => env.base(id)
    case Cast(s) => Address(s, env)
    case Collapse(s) => Address(s, env)
    case Expand(s) => Address(s, env)
    case SubView(s, e, layout, offsets) =>
      Address(s, env)
      + match layout
        case Strided(strides) => BytesSkipped(strides, offsets, ActualBytes(e), env, |offsets|)
        case Opaque(id) => env.shift(id)
  }

  predicate Divides(d: int, x: int) {
    if d == 0 then x == 0 else x % d == 0
  }

  /** The divisibility analysis is right about this run. */
  ghost predicate Trusts(env: Env, facts: Facts) {
    forall id | facts(id).Some? ::
      Divides(facts(id).value.udiv, env.number(id) % WORD) && Divides(facts(id).value.sdiv, env.number(id))
  }

  /** Every declared alignment along the chain is kept; a declaration of 0
      promises nothing. */
  ghost predicate Honours(b: Buffer, env: Env)
    requires WellTyped(b)
    decreases b
  {
    && (Declared(b).Some? && Declared(b).value > 0 ==> Address(b, env) % Declared(b).value == 0)
    && (b.AssumeAlignment? ==> Honours(b.source, env))
    && (ViewSource(b).Some? ==> Honours(ViewSource(b).value, env))
  }

  // ----- arithmetic -----

  /** `x` and `y` leave the same remainder. */
  ghost predicate Same(x: int, y: int, m: nat)
    requires m > 0
  {
    (x - y) % m == 0
  }

  lemma MultipleHas(x: int, m: nat) returns (k: int)
    requires m > 0 && x % m == 0
    ensures x == k * m
  {
    k := x / m;
  }

  lemma IsMultiple(k: int, m: nat)
    requires m > 0
    ensures (k * m) % m == 0
  {
    var q, r := (k * m) / m, (k * m) % m;
    assert (k - q) * m == r;
    if k > q {
      Grows(k - q, m);
    } else if k < q {
      Grows(q - k, m);
    }
  }

  lemma Grows(k: int, m: nat)
    requires k >= 1
    ensures k * m >= m
  {
  }

  lemma SumOfMultiples(x: int, y: int, m: nat)
    requires m > 0 && x % m == 0 && y % m == 0
    ensures (x + y) % m == 0 && (x - y) % m == 0
  {
    var j := MultipleHas(x, m);
    var k := MultipleHas(y, m);
    assert x + y == (j + k) * m && x - y == (j - k) * m;
    IsMultiple(j + k, m);
    IsMultiple(j - k, m);
  }

  lemma RemIsSame(a: int, m: nat)
    requires m > 0
    ensures Same(a, Rem(a, m), m)
    ensures -(m as int) < Rem(a, m) < m
  {
    if a >= 0 {
      assert a - Rem(a, m) == (a / m) * m;
      IsMultiple(a / m, m);
    } else {
      assert a - Rem(a, m) == (-((-a) / m)) * m;
      IsMultiple(-((-a) / m), m);
    }
  }

  lemma SameTrans(x: int, y: int, z: int, m: nat)
    requires m > 0 && Same(x, y, m) && Same(y, z, m)
    ensures Same(x, z, m)
  {
    SumOfMultiples(x - y, y - z, m);
  }

  lemma SameSum(x: int, y: int, v: int, w: int, m: nat)
    requires m > 0 && Same(x, y, m) && Same(v, w, m)
    ensures Same(x + v, y + w, m)
  {
    SumOfMultiples(x - y, v - w, m);
  }

  lemma SameProduct(x: int, y: int, v: int, w: int, m: nat)
    requires m > 0 && Same(x, y, m) && Same(v, w, m)
    ensures Same(x * v, y * w, m)
  {
    var j := MultipleHas(x - y, m);
    var k := MultipleHas(v - w, m);
    calc {
      x * v - y * w;
      (x - y) * v + y * (v - w);
      (j * m) * v + y * (k * m);
      (j * v + y * k) * m;
    }
    IsMultiple(j * v + y * k, m);
  }

  lemma RemainderShares(a: nat, b: nat, g: nat)
    requires b > 0 && g > 0 && b % g == 0 && (a % b) % g == 0
    ensures a % g == 0
  {
    var q, r := a / b, a % b;
    assert a == q * b + r;
    MultipleOfMultiple(q, b, g);
    SumOfMultiples(q * b, r, g);
  }

  lemma QuotientPositive(b: nat, g: nat)
    requires b > 0 && g > 0 && b % g == 0
    ensures b / g > 0 && b == (b / g) * g
  {
  }

  lemma {:induction false} GcdDivides(a: nat, b: nat)
    requires b > 0
    ensures Gcd(a, b) > 0 && a % Gcd(a, b) == 0 && b % Gcd(a, b) == 0
    ensures b / Gcd(a, b) > 0
    decreases b
  {
    if a % b == 0 {
      assert Gcd(b, 0) == b;
      IsMultiple(1, b);
    } else {
      GcdDivides(b, a % b);
      assert Gcd(a, b) == Gcd(b, a % b);
      hide Gcd;
      RemainderShares(a, b, Gcd(a, b));
    }
    hide Gcd;
    QuotientPositive(b, Gcd(a, b));
  }

  lemma DividesHas(d: int, x: int) returns (k: int)
    requires Divides(d, x)
    ensures x == k * d
  {
    k := if d == 0 then 0 else x / d;
  }

  lemma MultipleOfMultiple(j: int, d: int, m: nat)
    requires m > 0 && d % m == 0
    ensures (j * d) % m == 0
  {
    var k := MultipleHas(d, m);
    assert j * d == (j * k) * m;
    IsMultiple(j * k, m);
  }

  lemma RemZero(d: int, m: nat)
    requires m > 0 && Rem(d, m) == 0
    ensures d % m == 0
  {
    RemIsSame(d, m);
  }

  /** A fact about a number makes it a multiple of whatever divides the word. */
  lemma KnownIsMultiple(env: Env, facts: Facts, id: nat, m: nat)
    requires Trusts(env, facts) && m > 0 && WORD % m == 0 && KnownMultiple(facts, id, m)
    ensures env.number(id) % m == 0
  {
    var x, d := env.number(id), facts(id).value;
    assert facts(id).Some?;
    hide Rem, Divides;
    if d.udiv % m == 0 {
      var j := DividesHas(d.udiv, x % WORD);
      MultipleOfMultiple(j, d.udiv, m);
      var w := WORD;
      MultipleOfMultiple(x / w, w, m);
      assert x == (x / w) * w + x % w;
      SumOfMultiples((x / w) * w, x % w, m);
    } else {
      var j := DividesHas(d.sdiv, x);
      RemZero(d.sdiv, m);
      MultipleOfMultiple(j, d.sdiv, m);
    }
  }

  /** A dynamic offset that is a multiple of align / gcd(stride, align) moves
      the address by a multiple of `align`. */
  lemma DynamicPreserves(x: int, stride: int, align: nat)
    requires align > 0
    requires Gcd(Abs(stride), align) > 0 && align / Gcd(Abs(stride), align) > 0
    requires x % (align / Gcd(Abs(stride), align)) == 0
    ensures (x * stride) % align == 0
  {
    GcdDivides(Abs(stride), align);
    var g := Gcd(Abs(stride), align);
    hide Gcd;
    var m := align / g;
    QuotientPositive(align, g);
    var q := MultipleHas(x, m);
    var t := MultipleHas(Abs(stride), g);
    var signed := if stride >= 0 then t else -t;
    assert stride == signed * g;
    calc {
      x * stride;
      (q * m) * (signed * g);
      (q * signed) * (m * g);
      (q * signed) * align;
    }
    IsMultiple(q * signed, align);
  }

  lemma DivisorOfWord(align: nat, g: nat)
    requires align > 0 && g > 0 && align % g == 0 && WORD % align == 0 && align / g > 0
    ensures WORD % (align / g) == 0
  {
    var w := WORD;
    QuotientPositive(align, g);
    var k := MultipleHas(w, align);
    assert w == (k * g) * (align / g);
    IsMultiple(k * g, align / g);
  }

  /** One dimension contributes what the analysis adds for it. */
  lemma DimensionSound(offset: Index, strideBytes: int, align: nat, facts: Facts, env: Env)
    requires Trusts(env, facts) && align > 0 && WORD % align == 0
    ensures offset.Static? ==>
      Same(offset.value * strideBytes, Rem(Rem(offset.value, align) * Rem(strideBytes, align), align), align)
    ensures Gcd(Abs(strideBytes), align) > 0 && align / Gcd(Abs(strideBytes), align) > 0
    ensures offset.Dynamic? && KnownMultiple(facts, offset.id, align / Gcd(Abs(strideBytes), align)) ==>
      Same(env.number(offset.id) * strideBytes, 0, align)
  {
    GcdDivides(Abs(strideBytes), align);
    hide Gcd, Trusts;
    match offset
    case Static(c) =>
      RemIsSame(c, align);
      RemIsSame(strideBytes, align);
      var p := Rem(c, align) * Rem(strideBytes, align);
      SameProduct(c, Rem(c, align), strideBytes, Rem(strideBytes, align), align);
      RemIsSame(p, align);
      SameTrans(c * strideBytes, p, Rem(p, align), align);
    case Dynamic(id) =>
      var g := Gcd(Abs(strideBytes), align);
      if KnownMultiple(facts, id, align / g) {
        DivisorOfWord(align, g);
        KnownIsMultiple(env, facts, id, align / g);
        DynamicPreserves(env.number(id), strideBytes, align);
      }
  }

  /** What the analysis computes is the byte offset of every run, modulo the
      alignment. */
  lemma {:induction false} OffsetModuloSound(strides: seq<Index>, offsets: seq<Index>, bytes: nat, align: nat,
                                             facts: Facts, env: Env, n: nat)
    requires n <= |offsets| == |strides| && Trusts(env, facts) && align > 0 && WORD % align == 0
    requires OffsetModulo(strides, offsets, bytes, align, facts, n).Some?
    ensures Same(BytesSkipped(strides, offsets, bytes, env, n),
                 OffsetModulo(strides, offsets, bytes, align, facts, n).value, align)
    decreases n
  {
    if n > 0 {
      OffsetModuloSound(strides, offsets, bytes, align, facts, env, n - 1);
      var front := OffsetModulo(strides, offsets, bytes, align, facts, n - 1).value;
      var skipped := BytesSkipped(strides, offsets, bytes, env, n - 1);
      var strideBytes := strides[n - 1].value * bytes;
      DimensionSound(offsets[n - 1], strideBytes, align, facts, env);
      hide Gcd, Trusts, Same, Rem, KnownMultiple;
      match offsets[n - 1]
      case Static(c) =>
        var term := Rem(Rem(c, align) * Rem(strideBytes, align), align);
        SameSum(skipped, front, c * strideBytes, term, align);
        RemIsSame(front + term, align);
        SameTrans(skipped + c * strideBytes, front + term, Rem(front + term, align), align);
      case Dynamic(id) =>
        SameSum(skipped, front, env.number(id) * strideBytes, 0, align);
    }
  }

  /** The loop that accumulates the offset, as the compiler runs it. */
  method SubViewByteOffsetModulo(b: Buffer, align: nat, facts: Facts) returns (r: Option<int>)
    requires b.SubView? && (b.layout.Strided? ==> |b.offsets| == |b.layout.strides|) && align > 0
    ensures r == SubViewModulo(b, align, facts)
  {
    if b.layout.Opaque? {
      return None;
    }
    var strides, bytes := b.layout.strides, ElementBytes(b.element);
    if bytes == 0 {
      return None;
    }
    var modulo := 0;
    hide Rem, Gcd, KnownMultiple;
    for i := 0 to |b.offsets|
      invariant OffsetModulo(strides, b.offsets, bytes, align, facts, i) == Some(modulo)
    {
      if strides[i].Dynamic? {
        StaysNone(strides, b.offsets, bytes, align, facts, i + 1, |b.offsets|);
        return None;
      }
      var strideBytes := strides[i].value * bytes;
      if b.offsets[i].Dynamic? {
        GcdDivides(Abs(strideBytes), align);
        if !KnownMultiple(facts, b.offsets[i].id, align / Gcd(Abs(strideBytes), align)) {
          StaysNone(strides, b.offsets, bytes, align, facts, i + 1, |b.offsets|);
          return None;
        }
      } else {
        modulo := modulo + Rem(Rem(b.offsets[i].value, align) * Rem(strideBytes, align), align);
        modulo := Rem(modulo, align);
      }
    }
    return Some(modulo);
  }

  lemma {:induction false} StaysNone(strides: seq<Index>, offsets: seq<Index>, bytes: nat, align: nat, facts: Facts,
                                     n: nat, m: nat)
    requires n <= m <= |offsets| == |strides| && align > 0
    requires OffsetModulo(strides, offsets, bytes, align, facts, n).None?
    ensures OffsetModulo(strides, offsets, bytes, align, facts, m).None?
    decreases m
  {
    if n < m {
      StaysNone(strides, offsets, bytes, align, facts, n, m - 1);
    }
  }

  // ----- the chain of views -----

  function BaseOf(b: Buffer): (r: Buffer)
    ensures ViewSource(r).None?
    decreases b
  {
    if ViewSource(b).Some? then BaseOf(ViewSource(b).value) else b
  }

  /** The buffer that owns the storage behind a view. */
  method AllocationBase(b: Buffer) returns (base: Buffer)
    ensures base == BaseOf(b) && ViewSource(base).None?
  {
    base := b;
    while ViewSource(base).Some?
      invariant BaseOf(base) == BaseOf(b)
      decreases base
    {
      base := ViewSource(base).value;
    }
  }

  /** The analysis decides by what the owner of the storage declares. */
  lemma {:induction false} ProvidesByBase(b: Buffer, align: nat, facts: Facts)
    requires WellTyped(b) && align > 0 && Provides(b, align, facts)
    ensures WellTyped(BaseOf(b)) && Declared(BaseOf(b)).Some? && Declared(BaseOf(b)).value % align == 0
    decreases b
  {
    if ViewSource(b).Some? {
      ProvidesByBase(ViewSource(b).value, align, facts);
    }
  }

  /** Following the views keeps the remainder of the base address. */
  lemma {:induction false} ViewsKeepRemainder(b: Buffer, align: nat, facts: Facts, env: Env)
    requires WellTyped(b) && align > 0 && WORD % align == 0 && Provides(b, align, facts) && Trusts(env, facts)
    ensures WellTyped(BaseOf(b)) && Same(Address(b, env), Address(BaseOf(b), env), align)
    decreases b
  {
    if ViewSource(b).Some? {
      var s := ViewSource(b).value;
      ViewsKeepRemainder(s, align, facts, env);
      if b.SubView? {
        var strides, bytes := b.layout.strides, ElementBytes(b.element);
        OffsetModuloSound(strides, b.offsets, bytes, align, facts, env, |b.offsets|);
        var skipped := BytesSkipped(strides, b.offsets, bytes, env, |b.offsets|);
        SameSum(Address(s, env), Address(BaseOf(b), env), skipped, 0, align);
      }
    }
  }

  lemma {:induction false} BaseHonours(b: Buffer, env: Env)
    requires WellTyped(b) && Honours(b, env)
    ensures WellTyped(BaseOf(b)) && Honours(BaseOf(b), env)
    decreases b
  {
    if ViewSource(b).Some? {
      BaseHonours(ViewSource(b).value, env);
    }
  }

  /** If the analysis says yes and the storage declares an alignment other than
      0, the first element is aligned in every run that keeps the declarations
      and agrees with the divisibility analysis. */
  lemma AlignmentIsSound(b: Buffer, align: nat, facts: Facts, env: Env)
    requires WellTyped(b) && align > 0 && WORD % align == 0 && Provides(b, align, facts)
    requires Trusts(env, facts) && Honours(b, env) && Declared(BaseOf(b)) != Some(0)
    ensures Address(b, env) % align == 0
  {
    ProvidesByBase(b, align, facts);
    ViewsKeepRemainder(b, align, facts, env);
    BaseHonours(b, env);
    var base, declared := Address(BaseOf(b), env), Declared(BaseOf(b)).value;
    var j := MultipleHas(base, declared);
    MultipleOfMultiple(j, declared, align);
    SumOfMultiples(Address(b, env) - base, base, align);
  }

  function Misaligned(): Env {
    Env(_ => 1, _ => 0, _ => 0)
  }

  lemma {:induction false} MisalignedIsHonoured(b: Buffer, align: nat, facts: Facts)
    requires WellTyped(b) && align > 0 && Provides(b, align, facts) && Declared(BaseOf(b)) == Some(0)
    ensures Honours(b, Misaligned())
    decreases b
  {
    if ViewSource(b).Some? {
      MisalignedIsHonoured(ViewSource(b).value, align, facts);
    }
  }

  /** The exact condition: a yes of the analysis guarantees the alignment in
      all runs if and only if the storage declares an alignment at all. A
      declaration of 0, which is what an allocation without the attribute
      counts as, is accepted for every required alignment. */
  lemma SoundIffDeclared(b: Buffer, align: nat, facts: Facts)
    requires WellTyped(b) && align > 1 && WORD % align == 0 && Provides(b, align, facts)
    ensures (forall env | Trusts(env, facts) && Honours(b, env) :: Address(b, env) % align == 0)
      <==> Declared(BaseOf(b)) != Some(0)
  {
    if Declared(BaseOf(b)) == Some(0) {
      var env := Misaligned();
      MisalignedIsHonoured(b, align, facts);
      ViewsKeepRemainder(b, align, facts, env);
      assert Address(BaseOf(b), env) == 1;
      if Address(b, env) % align == 0 {
        SumOfMultiples(Address(b, env), Address(b, env) - 1, align);
      }
    } else {
      forall env | Trusts(env, facts) && Honours(b, env) ensures Address(b, env) % align == 0 {
        AlignmentIsSound(b, align, facts, env);
      }
    }
  }

  /** An allocation without the attribute passes the check for the matrix unit. */
  lemma UndeclaredIsAccepted(id: nat, facts: Facts)
    ensures Provides(Alloc(id, None), HMX_ALIGNMENT, facts)
    ensures Address(Alloc(id, None), Misaligned()) % HMX_ALIGNMENT != 0
  {
  }
}
