/**
 * Field errors, their translation into per-field message lists, and the model
 * validator that runs a list of field validators.
 */
module Validations {
  import opened Outcomes
  import opened ValidationErrors
  import opened Validators

  /** A validation error together with the fields it concerns. */
  datatype FieldError<F> = FieldError(fields: set<F>, error: ValidationError)

  /**
   * Some field of the error; an error that lists no fields has none (the source
   * aborts there). Which field is picked follows the set's iteration order, which
   * the model leaves open.
   */
  method PrimaryField<F(==)>(e: FieldError<F>) returns (r: Option<F>)
    ensures r.None? <==> e.fields == {}
    ensures r.Some? ==> r.value in e.fields
  {
    if e.fields == {} {
      r := None;
    } else {
      var f :| f in e.fields;
      r := Some(f);
    }
  }

  datatype ErrorSet<F> = ErrorSet(errors: seq<FieldError<F>>)

  // ---------------------------------------------------------------------------
  // Translation
  // ---------------------------------------------------------------------------

  /** `m` with `h` appended to the entry of every field in `fields`, creating entries as needed. */
  function AddTranslation<F(==), H>(m: map<F, seq<H>>, fields: set<F>, h: H): map<F, seq<H>>
  {
    map f | f in m.Keys + fields :: (if f in m then m[f] else []) + (if f in fields then [h] else [])
  }

  /** The per-field translation of `errors`, one error at a time in order. */
  function Translated<F(==), H>(errors: seq<FieldError<F>>, translator: FieldError<F> -> H): map<F, seq<H>>
  {
    if errors == [] then map[]
    else
      var last := errors[|errors| - 1];
      AddTranslation(Translated(errors[..|errors| - 1], translator), last.fields, translator(last))
  }

  /** The errors that list field `f`, in order. */
  function Listing<F(==)>(errors: seq<FieldError<F>>, f: F): seq<FieldError<F>>
  {
    if errors == [] then []
    else
      var last := errors[|errors| - 1];
      Listing(errors[..|errors| - 1], f) + (if f in last.fields then [last] else [])
  }

  /** `g` applied to every element of `s`. */
  function MapSeq<A, B>(s: seq<A>, g: A -> B): (r: seq<B>)
    ensures |r| == |s|
    ensures forall i :: 0 <= i < |s| ==> r[i] == g(s[i])
  {
    seq(|s|, i requires 0 <= i < |s| => g(s[i]))
  }

  lemma MapSeqAppend<A, B>(s: seq<A>, t: seq<A>, g: A -> B)
    ensures MapSeq(s + t, g) == MapSeq(s, g) + MapSeq(t, g)
  {
  }

  /** The listing of `f` holds exactly the errors that list `f`. */
  lemma {:induction false} ListingSpec<F>(errors: seq<FieldError<F>>, f: F)
    ensures forall x :: x in Listing(errors, f) ==> x in errors && f in x.fields
    ensures forall i :: 0 <= i < |errors| && f in errors[i].fields ==> errors[i] in Listing(errors, f)
    ensures |Listing(errors, f)| <= |errors|
    ensures Listing(errors, f) == [] <==> forall i :: 0 <= i < |errors| ==> f !in errors[i].fields
  {
    if errors != [] {
      var init := errors[..|errors| - 1];
      ListingSpec(init, f);
      forall i | 0 <= i < |errors| && f in errors[i].fields
        ensures errors[i] in Listing(errors, f)
      {
        if i < |errors| - 1 {
          assert errors[i] == init[i];
        }
      }
    }
  }

  /**
   * Translation gives every field listed by some error an entry, and no other
   * field one; a field's entry is the translation of the errors listing it, in
   * the order of the errors.
   */
  lemma {:induction false} TranslatedSpec<F, H>(errors: seq<FieldError<F>>, translator: FieldError<F> -> H, f: F)
    ensures f in Translated(errors, translator) <==> exists i :: 0 <= i < |errors| && f in errors[i].fields
    ensures f in Translated(errors, translator) ==> Translated(errors, translator)[f] == MapSeq(Listing(errors, f), translator)
  {
    ListingSpec(errors, f);
    if errors != [] {
      var init := errors[..|errors| - 1];
      var last := errors[|errors| - 1];
      TranslatedSpec(init, translator, f);
      ListingSpec(init, f);
      if f in Translated(errors, translator) {
        var extra := if f in last.fields then [last] else [];
        MapSeqAppend(Listing(init, f), extra, translator);
      }
      if exists i :: 0 <= i < |errors| && f in errors[i].fields {
        var i :| 0 <= i < |errors| && f in errors[i].fields;
        if i < |errors| - 1 {
          assert init[i] == errors[i];
        }
      }
    }
  }

  lemma AddTranslationEmpty<F, H>(m: map<F, seq<H>>, h: H)
    ensures AddTranslation(m, {}, h) == m
  {
    var r := AddTranslation(m, {}, h);
    assert r.Keys == m.Keys;
    forall f | f in m
      ensures r[f] == m[f]
    {
      assert r[f] == m[f] + [];
    }
  }

  lemma AddTranslationOne<F, H>(m: map<F, seq<H>>, done: set<F>, f: F, h: H)
    requires f !in done
    ensures AddTranslation(m, done, h)[f := (if f in AddTranslation(m, done, h) then AddTranslation(m, done, h)[f] else []) + [h]]
         == AddTranslation(m, done + {f}, h)
  {
    var a := AddTranslation(m, done, h);
    var lhs := a[f := (if f in a then a[f] else []) + [h]];
    var rhs := AddTranslation(m, done + {f}, h);
    assert lhs.Keys == rhs.Keys;
    forall g | g in lhs
      ensures lhs[g] == rhs[g]
    {
      if g == f {
        assert (if f in a then a[f] else []) == (if f in m then m[f] else []);
      }
    }
  }

  /** Translates every error once and files the result under each of its fields. */
  method Translate<F(==), H>(errorSet: ErrorSet<F>, translator: FieldError<F> -> H) returns (translated: map<F, seq<H>>)
    ensures translated == Translated(errorSet.errors, translator)
  {
    var errors := errorSet.errors;
    translated := map[];
    var i := 0;
    while i < |errors|
      invariant 0 <= i <= |errors|
      invariant translated == Translated(errors[..i], translator)
    {
      var error := errors[i];
      var message := translator(error);
      ghost var before := translated;
      AddTranslationEmpty(before, message);
      var remaining := error.fields;
      while remaining != {}
        invariant remaining <= error.fields
        invariant translated == AddTranslation(before, error.fields - remaining, message)
        decreases remaining
      {
        var f :| f in remaining;
        AddTranslationOne(before, error.fields - remaining, f, message);
        assert error.fields - (remaining - {f}) == (error.fields - remaining) + {f};
        translated := translated[f := (if f in translated then translated[f] else []) + [message]];
        remaining := remaining - {f};
      }
      assert error.fields - remaining == error.fields;
      assert errors[..i + 1][..i] == errors[..i];
      i := i + 1;
    }
    assert errors[..|errors|] == errors;
  }

  // ---------------------------------------------------------------------------
  // Model validator
  // ---------------------------------------------------------------------------

  /** A validator for some fields, with an optional message that replaces its error. */
  datatype FieldValidator<F> = FieldValidator(fields: set<F>, validator: Validator, message: Option<string>)

  /** The storages the validators of `entries` consult. */
  function EntriesStorages<F>(entries: seq<FieldValidator<F>>): set<object>
  {
    if entries == [] then {}
    else EntriesStorages(entries[..|entries| - 1]) + Storages(entries[|entries| - 1].validator)
  }

  /** The error an entry reports: its custom message when it has one, else the validator's own error. */
  function Reported<F>(entry: FieldValidator<F>, error: ValidationError): (r: ValidationError)
    ensures entry.message.None? ==> r == error
    ensures entry.message.Some? ==> r == Custom(entry.message.value)
  {
    match entry.message
    case Some(m) => Custom(m)
    case None => error
  }

  /** The field errors of the failing entries, in order. */
  function FieldErrors<F>(entries: seq<FieldValidator<F>>): seq<FieldError<F>>
    reads EntriesStorages(entries)
  {
    if entries == [] then []
    else
      var last := entries[|entries| - 1];
      var rest := FieldErrors(entries[..|entries| - 1]);
      match Validate(last.validator)
      case Ok(_) => rest
      case Err(e) => rest + [FieldError(last.fields, Reported(last, e))]
  }

  /** The positions of the failing entries, in increasing order. */
  ghost function Failing<F>(entries: seq<FieldValidator<F>>): seq<nat>
    reads EntriesStorages(entries)
  {
    if entries == [] then []
    else
      var rest := Failing(entries[..|entries| - 1]);
      if Validate(entries[|entries| - 1].validator).Err? then rest + [|entries| - 1] else rest
  }

  /**
   * One field error per failing entry, in the order of the entries: the entry's
   * fields, with its custom message if any, else the validator's error; passing
   * entries contribute nothing.
   */
  lemma {:induction false} FieldErrorsSpec<F>(entries: seq<FieldValidator<F>>)
    ensures |FieldErrors(entries)| == |Failing(entries)|
    ensures forall j :: 0 <= j < |Failing(entries)| ==>
      var k := Failing(entries)[j];
      k < |entries| && Validate(entries[k].validator).Err? &&
      FieldErrors(entries)[j] == FieldError(entries[k].fields, Reported(entries[k], Validate(entries[k].validator).error))
    ensures forall j, j' :: 0 <= j < j' < |Failing(entries)| ==> Failing(entries)[j] < Failing(entries)[j']
    ensures forall k :: 0 <= k < |entries| && Validate(entries[k].validator).Err? ==> k in Failing(entries)
  {
    if entries != [] {
      var init := entries[..|entries| - 1];
      FieldErrorsSpec(init);
      assert forall j :: 0 <= j < |Failing(init)| ==> Failing(init)[j] < |init|;
      forall k | 0 <= k < |entries| && Validate(entries[k].validator).Err?
        ensures k in Failing(entries)
      {
        if k < |entries| - 1 {
          assert entries[k] == init[k];
        }
      }
      forall j | 0 <= j < |Failing(entries)|
        ensures Failing(entries)[j] < |entries|
        ensures entries[Failing(entries)[j]] == (if j < |Failing(init)| then init[Failing(init)[j]] else entries[|entries| - 1])
      {
      }
    }
  }

  /** The model validator reports nothing exactly when every entry passes. */
  lemma NoErrorsIffAllPass<F>(entries: seq<FieldValidator<F>>)
    ensures FieldErrors(entries) == [] <==> forall k :: 0 <= k < |entries| ==> Validate(entries[k].validator).Ok?
  {
    FieldErrorsSpec(entries);
    if FieldErrors(entries) != [] {
      var k := Failing(entries)[0];
      assert Validate(entries[k].validator).Err?;
    }
  }

  /** After validating and translating, exactly the fields of failing entries carry messages. */
  lemma FlaggedFields<F, H>(entries: seq<FieldValidator<F>>, translator: FieldError<F> -> H, f: F)
    ensures f in Translated(FieldErrors(entries), translator) <==>
      exists k :: 0 <= k < |entries| && Validate(entries[k].validator).Err? && f in entries[k].fields
  {
    var errors := FieldErrors(entries);
    FieldErrorsSpec(entries);
    TranslatedSpec(errors, translator, f);
    if f in Translated(errors, translator) {
      var i :| 0 <= i < |errors| && f in errors[i].fields;
      var k := Failing(entries)[i];
      assert f in entries[k].fields;
    }
    if exists k :: 0 <= k < |entries| && Validate(entries[k].validator).Err? && f in entries[k].fields {
      var k :| 0 <= k < |entries| && Validate(entries[k].validator).Err? && f in entries[k].fields;
      var j :| 0 <= j < |Failing(entries)| && Failing(entries)[j] == k;
      assert f in errors[j].fields;
    }
  }

  /** Field validators accumulated builder-style, then run together. */
  class ModelValidator<F(==)> {
    var validations: seq<FieldValidator<F>>

    /** A model validator with no field validators. */
    constructor ()
      ensures validations == []
    {
      validations := [];
    }

    /** Adds a validator for one field that reports the validator's own error. */
    method WithField(field: F, validator: Validator)
      modifies this
      ensures validations == old(validations) + [FieldValidator({field}, validator, None)]
    {
      validations := validations + [FieldValidator({field}, validator, None)];
    }

    /** Adds a validator for one field that reports `message` instead of the validator's error. */
    method WithCustom(field: F, validator: Validator, message: string)
      modifies this
      ensures validations == old(validations) + [FieldValidator({field}, validator, Some(message))]
    {
      validations := validations + [FieldValidator({field}, validator, Some(message))];
    }

    /** Adds a validator for a group of fields (duplicates collapse) that reports `message`. */
    method WithFields(fields: seq<F>, validator: Validator, message: string)
      modifies this
      ensures validations == old(validations) + [FieldValidator((set f | f in fields), validator, Some(message))]
    {
      validations := validations + [FieldValidator((set f | f in fields), validator, Some(message))];
    }

    /** Runs every field validator in order; no error set at all when none fails. */
    method Validate() returns (r: Option<ErrorSet<F>>)
      ensures r.None? <==> forall k :: 0 <= k < |validations| ==> Validators.Validate(validations[k].validator).Ok?
      ensures r.Some? ==> r.value.errors == FieldErrors(validations) && r.value.errors != []
    {
      var errors: seq<FieldError<F>> := [];
      var i := 0;
      while i < |validations|
        invariant 0 <= i <= |validations|
        invariant errors == FieldErrors(validations[..i])
      {
        var validation := validations[i];
        assert validations[..i + 1][..i] == validations[..i];
        match Validators.Validate(validation.validator) {
          case Ok(_) =>
          case Err(error) =>
            errors := errors + [FieldError(validation.fields, Reported(validation, error))];
        }
        i := i + 1;
      }
      assert validations[..|validations|] == validations;
      NoErrorsIffAllPass(validations);
      if errors != [] {
        r := Some(ErrorSet(errors));
      } else {
        r := None;
      }
    }
  }
}
