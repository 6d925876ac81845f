/**
 * Form value storage: a value, whether it is dirty, and whether the input it
 * came from was flagged invalid. Every clone of a storage shares the one backing
 * cell, so a clone is the same object here.
 */
module Storage {
  import opened Outcomes
  import opened ValidationErrors

  class FormStorage<T(==)> {
    var value: T
    var dirty: bool
    var invalidValue: bool

    /** A fresh, clean, valid storage holding `value`. */
    constructor (value: T)
      ensures this.value == value && !dirty && !invalidValue
    {
      this.value := value;
      dirty := false;
      invalidValue := false;
    }

    /** A clone shares the backing cell: it is this very storage. */
    method Clone() returns (c: FormStorage<T>)
      ensures c == this
    {
      c := this;
    }

    /**
     * Stores a new value. The dirty flag becomes set when the new value EQUALS the
     * old one and otherwise keeps its state; the invalid flag is kept.
     */
    method Update(newValue: T)
      modifies this
      ensures value == newValue
      ensures dirty == (old(dirty) || old(value) == newValue)
      ensures invalidValue == old(invalidValue)
    {
      dirty := dirty || value == newValue;
      value := newValue;
    }

    /** `Update`, then the invalid flag set to `invalid`. */
    method UpdateWithInvalidHint(newValue: T, invalid: bool)
      modifies this
      ensures value == newValue
      ensures dirty == (old(dirty) || old(value) == newValue)
      ensures invalidValue == invalid
    {
      Update(newValue);
      invalidValue := invalid;
    }

    /** Changes only the invalid flag. */
    method UpdateInvalidHint(invalid: bool)
      modifies this
      ensures value == old(value) && dirty == old(dirty)
      ensures invalidValue == invalid
    {
      invalidValue := invalid;
    }

    /** The storage as a validator: it fails exactly when flagged invalid. */
    function Validate(): (r: Result<(), ValidationError>)
      reads this
      ensures r.Err? <==> invalidValue
      ensures r.Err? ==> r.error == InvalidValue
    {
      if invalidValue then Err(InvalidValue) else Ok(())
    }

    /** The stored value, whether or not it is flagged invalid. */
    function UncheckedValue(): (r: T)
      reads this
      ensures r == value
    {
      value
    }

    /** The stored value when it is not flagged invalid; the validation error otherwise. */
    function Value(): (r: Result<T, ValidationError>)
      reads this
      ensures r.Ok? <==> Validate().Ok?
      ensures r.Ok? ==> r.value == UncheckedValue()
      ensures r.Err? ==> r.error == Validate().error == InvalidValue
    {
      match Validate()
      case Ok(_) => Ok(UncheckedValue())
      case Err(e) => Err(e)
    }
  }

  /** An update through one clone is what every other clone then holds. */
  method UpdateThroughClone<T(==)>(s: FormStorage<T>, newValue: T) returns (c: FormStorage<T>)
    modifies s
    ensures c == s
    ensures s.UncheckedValue() == newValue && c.UncheckedValue() == newValue
    ensures s.Value() == c.Value()
  {
    c := s.Clone();
    c.Update(newValue);
  }
}
