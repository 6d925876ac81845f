/** Whether a form value counts as filled in. */
module Presence {
  import opened Outcomes

  /** The two floating-point widths; only their machine epsilons matter here. */
  datatype Width = F32 | F64

  /** A floating-point value: a finite number (taken exactly, without rounding), an infinity, or NaN. */
  datatype Float = Finite(x: real) | Infinite(negative: bool) | NaN

  /**
   * The values a presence check applies to: strings, integers of any width and
   * signedness (all compare against zero alike), floats, and optional values.
   */
  datatype Value = Str(s: string) | Int(i: int) | Flt(width: Width, f: Float) | Opt(o: Option<Value>)

  /** The machine epsilon of each width: 2^-23 and 2^-52. */
  function Epsilon(w: Width): (e: real)
    ensures 0.0 < e < 1.0
  {
    match w
    case F32 => 1.0 / 8388608.0
    case F64 => 1.0 / 4503599627370496.0
  }

  /**
   * The default approximate comparison against 0.0: within one epsilon (the
   * four-ulps alternative only admits values that are already this close).
   */
  predicate NearZero(w: Width, x: real) {
    -Epsilon(w) <= x <= Epsilon(w)
  }

  /** The float presence test as the source writes it: finite AND approximately zero. */
  predicate FloatPresentAsWritten(w: Width, f: Float) {
    f.Finite? && NearZero(w, f.x)
  }

  /** The float presence test as intended: finite and NOT approximately zero. */
  predicate FloatPresent(w: Width, f: Float) {
    f.Finite? && !NearZero(w, f.x)
  }

  /**
   * Presence of a value that is not an option: a string when non-empty, an
   * integer when non-zero, a float when finite and not approximately zero. The
   * default value of each type (empty string, zero, 0.0) is never present, and
   * neither is NaN or an infinity.
   */
  predicate ScalarPresent(v: Value)
    requires !v.Opt?
    ensures v == Str("") || v == Int(0) || v == Flt(F32, Finite(0.0)) || v == Flt(F64, Finite(0.0)) ==> !ScalarPresent(v)
    ensures v.Flt? && !v.f.Finite? ==> !ScalarPresent(v)
  {
    match v
    case Str(s) => s != ""
    case Int(i) => i != 0
    case Flt(w, f) => FloatPresent(w, f)
  }

  /** The value under all of `v`'s `Some` wrappers, or `None` when an empty option is reached. */
  function Innermost(v: Value): (r: Option<Value>)
    ensures r.Some? ==> !r.value.Opt?
    ensures !v.Opt? ==> r == Some(v)
  {
    match v
    case Opt(None) => None
    case Opt(Some(p)) => Innermost(p)
    case _ => Some(v)
  }

  /**
   * A non-option value is present by its own type's rule; an option is present
   * when it holds a present value. So a value is present exactly when unwrapping
   * every `Some` reaches a present non-option value.
   */
  predicate Present(v: Value)
    ensures Present(v) <==> Innermost(v).Some? && ScalarPresent(Innermost(v).value)
  {
    match v
    case Opt(None) => false
    case Opt(Some(p)) => Present(p)
    case _ => ScalarPresent(v)
  }

  /** Absence is the negation of presence: an empty option at some depth, or a non-present value under it. */
  predicate Absent(v: Value)
    ensures Absent(v) <==> Innermost(v).None? || !ScalarPresent(Innermost(v).value)
  {
    !Present(v)
  }

  /** As written, 0.0 counts as filled in and 1.0 as blank, the reverse of the integer rule. */
  lemma FloatPresenceInverted(w: Width)
    ensures FloatPresentAsWritten(w, Finite(0.0)) && !FloatPresentAsWritten(w, Finite(1.0))
    ensures Absent(Int(0)) && Present(Int(1))
  {
  }

  /** With the intended test an integral float is present exactly when the integer is. */
  lemma FloatAgreesWithInteger(w: Width, i: int)
    ensures Present(Flt(w, Finite(i as real))) <==> Present(Int(i))
  {
    if i != 0 {
      assert i <= -1 || 1 <= i;
    }
  }

  /** NaN and the infinities are never present; as written and as intended they part only on finite values. */
  lemma NonFiniteAbsent(w: Width, f: Float)
    requires !f.Finite?
    ensures Absent(Flt(w, f)) && !FloatPresentAsWritten(w, f)
  {
  }

  /** `v` wrapped in `Some` `depth` times. */
  function Wrap(v: Value, depth: nat): (w: Value)
    ensures depth > 0 ==> w.Opt? && w.o.Some?
  {
    if depth == 0 then v else Opt(Some(Wrap(v, depth - 1)))
  }

  /** However deeply a value is wrapped in `Some`, it is present exactly when the value is. */
  lemma {:induction false} WrappedPresence(v: Value, depth: nat)
    ensures Present(Wrap(v, depth)) <==> Present(v)
  {
    if depth > 0 {
      WrappedPresence(v, depth - 1);
    }
  }

  /** An empty option is absent at every depth of wrapping. */
  lemma {:induction false} WrappedNoneAbsent(depth: nat)
    ensures Absent(Wrap(Opt(None), depth))
  {
    WrappedPresence(Opt(None), depth);
  }
}
