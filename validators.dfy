/**
 * Validators over form storages: presence and absence checks, the storage's own
 * validity check, and the `and`/`or` combinators.
 */
module Validators {
  import opened Outcomes
  import opened ValidationErrors
  import opened Storage
  import opened Presence

  datatype Validator =
    | IsPresent(storage: FormStorage<Value>)
    | IsAbsent(storage: FormStorage<Value>)
    | Stored(storage: FormStorage<Value>)
    | And(left: Validator, right: Validator)
    | Or(left: Validator, right: Validator)

  /** The storages a validator consults. */
  function Storages(v: Validator): set<object>
  {
    match v
    case IsPresent(s) => {s}
    case IsAbsent(s) => {s}
    case Stored(s) => {s}
    case And(l, r) => Storages(l) + Storages(r)
    case Or(l, r) => Storages(l) + Storages(r)
  }

  /**
   * Runs a validator against the current contents of its storages. `And` stops
   * at the left error; `Or` consults the right side only when the left fails.
   * It passes exactly when its boolean reading `Holds` is true.
   */
  function Validate(v: Validator): (r: Result<(), ValidationError>)
    reads Storages(v)
    ensures r.Ok? <==> Holds(v)
  {
    match v
    case IsPresent(s) =>
      var x :- s.Value();
      if Present(x) then Ok(()) else Err(NotPresent)
    case IsAbsent(s) =>
      var x :- s.Value();
      if Absent(x) then Ok(()) else Err(NotAbsent)
    case Stored(s) => s.Validate()
    case And(l, r) =>
      (match Validate(l)
       case Ok(_) => Validate(r)
       case Err(e) => Err(e))
    case Or(l, r) =>
      (match Validate(l)
       case Ok(_) => Ok(())
       case Err(_) => Validate(r))
  }

  /** Independent reading of when a validator passes, as a boolean formula over the storages. */
  ghost predicate Holds(v: Validator)
    reads Storages(v)
  {
    match v
    case IsPresent(s) => !s.invalidValue && Present(s.value)
    case IsAbsent(s) => !s.invalidValue && !Present(s.value)
    case Stored(s) => !s.invalidValue
    case And(l, r) => Holds(l) && Holds(r)
    case Or(l, r) => Holds(l) || Holds(r)
  }

  /** `v` has an `IsPresent` leaf. */
  predicate HasPresentCheck(v: Validator) {
    match v
    case IsPresent(_) => true
    case IsAbsent(_) => false
    case Stored(_) => false
    case And(l, r) => HasPresentCheck(l) || HasPresentCheck(r)
    case Or(l, r) => HasPresentCheck(l) || HasPresentCheck(r)
  }

  /** `v` has an `IsAbsent` leaf. */
  predicate HasAbsentCheck(v: Validator) {
    match v
    case IsPresent(_) => false
    case IsAbsent(_) => true
    case Stored(_) => false
    case And(l, r) => HasAbsentCheck(l) || HasAbsentCheck(r)
    case Or(l, r) => HasAbsentCheck(l) || HasAbsentCheck(r)
  }

  /** Some storage `v` consults is flagged invalid. */
  predicate ConsultsInvalid(v: Validator)
    reads Storages(v)
  {
    match v
    case IsPresent(s) => s.invalidValue
    case IsAbsent(s) => s.invalidValue
    case Stored(s) => s.invalidValue
    case And(l, r) => ConsultsInvalid(l) || ConsultsInvalid(r)
    case Or(l, r) => ConsultsInvalid(l) || ConsultsInvalid(r)
  }

  /**
   * Combinators never invent an error: a failure is never custom, and each kind
   * of error comes from a leaf that can produce it.
   */
  lemma {:induction false} ErrorsComeFromLeaves(v: Validator)
    ensures Validate(v).Err? ==> !Validate(v).error.Custom?
    ensures Validate(v) == Err(NotPresent) ==> HasPresentCheck(v)
    ensures Validate(v) == Err(NotAbsent) ==> HasAbsentCheck(v)
    ensures Validate(v) == Err(InvalidValue) ==> ConsultsInvalid(v)
  {
    match v
    case IsPresent(_) =>
    case IsAbsent(_) =>
    case Stored(_) =>
    case And(l, r) =>
      ErrorsComeFromLeaves(l);
      ErrorsComeFromLeaves(r);
    case Or(l, r) =>
      ErrorsComeFromLeaves(l);
      ErrorsComeFromLeaves(r);
  }

  /** A presence check: the storage's invalid flag first, then `NotPresent` for a blank value. */
  lemma PresentSpec(s: FormStorage<Value>)
    ensures s.invalidValue ==> Validate(IsPresent(s)) == Err(InvalidValue)
    ensures !s.invalidValue && Present(s.value) ==> Validate(IsPresent(s)) == Ok(())
    ensures !s.invalidValue && !Present(s.value) ==> Validate(IsPresent(s)) == Err(NotPresent)
  {
  }

  /** An absence check: the storage's invalid flag first, then `NotAbsent` for a filled-in value. */
  lemma AbsentSpec(s: FormStorage<Value>)
    ensures s.invalidValue ==> Validate(IsAbsent(s)) == Err(InvalidValue)
    ensures !s.invalidValue && Absent(s.value) ==> Validate(IsAbsent(s)) == Ok(())
    ensures !s.invalidValue && !Absent(s.value) ==> Validate(IsAbsent(s)) == Err(NotAbsent)
  {
  }

  /** `And` passes when both sides do, otherwise reports the first failing side's error. */
  lemma AndSpec(l: Validator, r: Validator)
    ensures Validate(And(l, r)).Ok? <==> Validate(l).Ok? && Validate(r).Ok?
    ensures Validate(l).Err? ==> Validate(And(l, r)) == Validate(l)
    ensures Validate(l).Ok? ==> Validate(And(l, r)) == Validate(r)
  {
  }

  /** `Or` passes when either side does, otherwise reports the right side's error. */
  lemma OrSpec(l: Validator, r: Validator)
    ensures Validate(Or(l, r)).Ok? <==> Validate(l).Ok? || Validate(r).Ok?
    ensures Validate(l).Ok? ==> Validate(Or(l, r)) == Ok(())
    ensures Validate(l).Err? ==> Validate(Or(l, r)) == Validate(r)
  {
  }

  /** Short-circuiting: when the left side settles the outcome, the right side's value is irrelevant. */
  lemma ShortCircuit(l: Validator, r1: Validator, r2: Validator)
    ensures Validate(l).Err? ==> Validate(And(l, r1)) == Validate(And(l, r2))
    ensures Validate(l).Ok? ==> Validate(Or(l, r1)) == Validate(Or(l, r2))
  {
  }

  /** One storage can never be both present and absent, and a valid one is always one of the two. */
  lemma PresentAbsentExclusive(s: FormStorage<Value>)
    ensures Validate(And(IsPresent(s), IsAbsent(s))).Err?
    ensures Validate(Or(IsPresent(s), IsAbsent(s))).Ok? <==> !s.invalidValue
  {
  }

  /** The combinator truth table over a filled-in and a blank value. */
  lemma TruthTable(filled: FormStorage<Value>, blank: FormStorage<Value>)
    requires !filled.invalidValue && filled.value == Int(1)
    requires !blank.invalidValue && blank.value == Int(0)
    ensures Validate(Or(IsPresent(filled), IsPresent(blank))).Ok?
    ensures Validate(Or(IsPresent(blank), IsPresent(filled))).Ok?
    ensures Validate(Or(IsPresent(filled), IsPresent(filled))).Ok?
    ensures Validate(Or(IsPresent(blank), IsPresent(blank))) == Err(NotPresent)
    ensures Validate(And(IsPresent(filled), IsPresent(filled))).Ok?
    ensures Validate(And(IsPresent(filled), IsPresent(blank))) == Err(NotPresent)
    ensures Validate(And(IsPresent(blank), IsPresent(filled))) == Err(NotPresent)
    ensures Validate(And(IsPresent(blank), IsPresent(blank))) == Err(NotPresent)
  {
  }

  /** A presence check on a plain value checks a fresh storage holding a copy of it. */
  method IsPresentOf(x: Value) returns (v: Validator)
    ensures v.IsPresent? && fresh(v.storage)
    ensures Validate(v) == (if Present(x) then Ok(()) else Err(NotPresent))
  {
    var s := new FormStorage(x);
    v := IsPresent(s);
  }

  /** An absence check on a plain value checks a fresh storage holding a copy of it. */
  method IsAbsentOf(x: Value) returns (v: Validator)
    ensures v.IsAbsent? && fresh(v.storage)
    ensures Validate(v) == (if Absent(x) then Ok(()) else Err(NotAbsent))
  {
    var s := new FormStorage(x);
    v := IsAbsent(s);
  }

  /**
   * A presence check on a storage shares the storage, so a later update of the
   * storage is what the check sees.
   */
  method IsPresentOfStorage(s: FormStorage<Value>, later: Value) returns (v: Validator)
    modifies s
    ensures v == IsPresent(s)
    ensures s.value == later && s.invalidValue == old(s.invalidValue)
    ensures Validate(v) == (if s.invalidValue then Err(InvalidValue)
                            else if Present(later) then Ok(()) else Err(NotPresent))
  {
    var shared := s.Clone();
    v := IsPresent(shared);
    s.Update(later);
  }
}
