/**
 * `RecipeSearchForm`: five optional fields, cleaned the way Django's
 * `CharField`, `IntegerField` and `ChoiceField` clean a submitted value.
 * A submission is valid exactly when no field reports an error; the errors
 * are keyed by field, in the order the fields are declared.
 */
module SearchForm {
  import opened Wrappers
  import opened Text

  // ---------------------------------------------------------------------
  // Declarations

  datatype Field = RecipeName | Ingredients | MaxCookTime | Difficulty | ChartType

  /** The fields in declaration order. */
  const FieldOrder: seq<Field> := [RecipeName, Ingredients, MaxCookTime, Difficulty, ChartType]

  /** The name each field is submitted and reported under. */
  function FieldName(f: Field): string
  {
    match f
    case RecipeName => "recipe_name"
    case Ingredients => "ingredients"
    case MaxCookTime => "max_cook_time"
    case Difficulty => "difficulty"
    case ChartType => "chart_type"
  }

  const RecipeNameMaxLength: nat := 120
  const IngredientsMaxLength: nat := 300
  const MinCookTime: int := 1
  const MaxCookTimeLimit: int := 500

  /** The values of `DIFFICULTY_CHOICES`. */
  const DifficultyChoices: seq<string> := ["", "Easy", "Medium", "Hard"]

  /** The values of `CHART_CHOICES`. */
  const ChartChoices: seq<string> := ["", "#1", "#2", "#3"]

  /** Every field appears once in the declaration order. */
  lemma FieldOrderComplete(f: Field)
    ensures f in FieldOrder
    ensures forall i, j :: 0 <= i < j < |FieldOrder| ==> FieldOrder[i] != FieldOrder[j]
    ensures forall i, j :: 0 <= i < j < |FieldOrder| ==> FieldName(FieldOrder[i]) != FieldName(FieldOrder[j])
  {
    assert FieldOrder[0] == RecipeName && FieldOrder[1] == Ingredients;
  }

  // ---------------------------------------------------------------------
  // Field cleaning

  /** What one field reports: the cleaned value, or its errors in the order Django raises them. */
  datatype FieldError =
    | TooLong(limit: nat)
    | NullCharacter
    | NotAnInteger
    | BelowMinimum(min: int)
    | AboveMaximum(max: int)
    | InvalidChoice(value: string)

  datatype Value = Text(text: string) | Number(number: Option<int>)

  datatype Outcome = Ok(value: Value) | Err(errors: seq<FieldError>)

  /**
   * `CharField(max_length=limit, required=False)`: the value stripped, ""
   * when absent; then, unless empty, too long and NUL characters are errors.
   */
  function CleanChar(raw: Option<string>, limit: nat): (r: Outcome)
    ensures r.Ok? <==> raw.None? || (|Strip(raw.value)| <= limit && '\0' !in Strip(raw.value))
    ensures r.Ok? ==> r.value == Text(if raw.None? then "" else Strip(raw.value))
    ensures r.Err? ==>
      && r.errors != [] && raw.Some?
      && ((TooLong(limit) in r.errors) <==> |Strip(raw.value)| > limit)
      && ((NullCharacter in r.errors) <==> '\0' in Strip(raw.value))
  {
    var v := if raw.None? then "" else Strip(raw.value);
    var errors := (if |v| > limit then [TooLong(limit)] else []) + (if '\0' in v then [NullCharacter] else []);
    if v == [] || errors == [] then Ok(Text(v)) else Err(errors)
  }

  /** Only zeros and then blanks. */
  predicate ZerosThenBlanks(s: string)
  {
    s == [] || (s[0] == '0' && ZerosThenBlanks(s[1..])) || (forall k :: 0 <= k < |s| ==> IsSpace(s[k]))
  }

  /**
   * `re.sub(r"\.0*\s*$", "", s)`: a final "." followed only by zeros and
   * blanks is removed, with what follows it.
   */
  function DropZeroFraction(s: string): (r: string)
    ensures r <= s
  {
    if s == [] then s
    else if s[0] == '.' && ZerosThenBlanks(s[1..]) then []
    else [s[0]] + DropZeroFraction(s[1..])
  }

  /** `int(s)`: blanks around an optional sign and decimal digits. */
  function PythonInt(s: string): Option<int>
  {
    ParseInt(Strip(s))
  }

  /**
   * `IntegerField(min_value=1, max_value=500, required=False)`: None when
   * absent or empty; otherwise an integer after the zero fraction is
   * dropped, or the "invalid" error; then the bounds.
   */
  function CleanInteger(raw: Option<string>, min: int, max: int): (r: Outcome)
    ensures raw.None? || raw.value == "" ==> r == Ok(Number(None))
    ensures r.Ok? ==> r.value.Number?
    ensures r.Ok? && r.value.number.Some? ==> min <= r.value.number.value <= max
    ensures r.Ok? && r.value.number.Some? ==> raw.Some? && PythonInt(DropZeroFraction(raw.value)) == r.value.number
    ensures r.Ok? && r.value.number.None? ==> raw.None? || raw.value == ""
    ensures r.Err? ==> |r.errors| == 1
  {
    match raw
    case None => Ok(Number(None))
    case Some(s) =>
      if s == "" then Ok(Number(None))
      else
        match PythonInt(DropZeroFraction(s))
        case None => Err([NotAnInteger])
        case Some(n) =>
          if n > max then Err([AboveMaximum(max)])
          else if n < min then Err([BelowMinimum(min)])
          else Ok(Number(Some(n)))
  }

  /** `ChoiceField(choices=…, required=False)`: "" always, any other value only when it is a choice. */
  function CleanChoice(raw: Option<string>, choices: seq<string>): (r: Outcome)
    ensures r.Ok? <==> raw.None? || raw.value == "" || raw.value in choices
    ensures r.Ok? ==> r.value == Text(if raw.None? then "" else raw.value)
    ensures r.Err? ==> r.errors == [InvalidChoice(raw.value)]
  {
    match raw
    case None => Ok(Text(""))
    case Some(s) => if s == "" || s in choices then Ok(Text(s)) else Err([InvalidChoice(s)])
  }

  /** How the form cleans each of its fields. */
  function CleanField(f: Field, raw: Option<string>): Outcome
  {
    match f
    case RecipeName => CleanChar(raw, RecipeNameMaxLength)
    case Ingredients => CleanChar(raw, IngredientsMaxLength)
    case MaxCookTime => CleanInteger(raw, MinCookTime, MaxCookTimeLimit)
    case Difficulty => CleanChoice(raw, DifficultyChoices)
    case ChartType => CleanChoice(raw, ChartChoices)
  }

  // ---------------------------------------------------------------------
  // The form

  /** The submitted data: a text value for each field that was sent. */
  type Data = map<Field, string>

  function Raw(data: Data, f: Field): Option<string>
  {
    if f in data then Some(data[f]) else None
  }

  /** Does `f` fail to clean on `data`? */
  predicate Fails(data: Data, f: Field)
  {
    CleanField(f, Raw(data, f)).Err?
  }

  /** The fields among `fields` that fail, in order. */
  function FailingFields(data: Data, fields: seq<Field>): (r: seq<Field>)
    ensures forall f :: f in r <==> f in fields && Fails(data, f)
  {
    if fields == [] then []
    else
      var rest := FailingFields(data, fields[1..]);
      assert forall g :: g in fields <==> g == fields[0] || g in fields[1..];
      if Fails(data, fields[0]) then [fields[0]] + rest else rest
  }

  /** The errors `f` reports on `data`; none when it cleans. */
  function FieldErrors(data: Data, f: Field): seq<FieldError>
  {
    match CleanField(f, Raw(data, f))
    case Err(errors) => errors
    case Ok(_) => []
  }

  /** `form.errors` of a bound form: each failing field with its errors, in declaration order. */
  function Errors(data: Data): seq<(Field, seq<FieldError>)>
  {
    var fs := FailingFields(data, FieldOrder);
    seq(|fs|, i requires 0 <= i < |fs| => (fs[i], FieldErrors(data, fs[i])))
  }

  /** Did the form report an error for `f`? */
  predicate HasError(data: Data, f: Field)
  {
    exists i :: 0 <= i < |Errors(data)| && Errors(data)[i].0 == f
  }

  /** What reaches the form: nothing (an unbound form) or the submitted data. */
  datatype Submission = Unbound | Bound(data: Data)

  /** `form.is_valid()`. */
  predicate IsValid(s: Submission)
  {
    s.Bound? && Errors(s.data) == []
  }

  /**
   * A bound form is valid exactly when every field cleans, and a field is
   * among the errors, with the errors its cleaning gives, exactly when it
   * fails to clean.
   */
  lemma ValidIffEveryFieldCleans(data: Data)
    ensures IsValid(Bound(data)) <==> forall f :: CleanField(f, Raw(data, f)).Ok?
    ensures forall f :: HasError(data, f) <==> CleanField(f, Raw(data, f)).Err?
    ensures forall i :: 0 <= i < |Errors(data)| ==>
      var f := Errors(data)[i].0;
      CleanField(f, Raw(data, f)).Err? && Errors(data)[i].1 == CleanField(f, Raw(data, f)).errors
  {
    var fs := FailingFields(data, FieldOrder);
    var errs := Errors(data);
    forall f ensures f in FieldOrder { FieldOrderComplete(f); }
    assert |errs| == |fs|;
    if fs != [] {
      assert fs[0] in fs && errs != [];
    } else {
      assert errs == [];
      forall f ensures CleanField(f, Raw(data, f)).Ok? {
        assert f !in fs && f in FieldOrder;
      }
    }
    forall i | 0 <= i < |errs|
      ensures CleanField(errs[i].0, Raw(data, errs[i].0)).Err?
      ensures errs[i].1 == CleanField(errs[i].0, Raw(data, errs[i].0)).errors
    {
      assert fs[i] in fs;
    }
    forall f ensures HasError(data, f) <==> f in fs {
      if f in fs {
        var i :| 0 <= i < |fs| && fs[i] == f;
        assert errs[i].0 == f;
      }
    }
  }

  /** Every field is optional: an empty submission is valid, an unbound form is not. */
  lemma EmptySubmissionValid()
    ensures IsValid(Bound(map[]))
    ensures !IsValid(Unbound)
  {
    ValidIffEveryFieldCleans(map[]);
  }

  /**
   * A cook time written as an integer is accepted exactly when it lies in
   * 1..500; below, the minimum is reported, above, the maximum.
   */
  lemma CookTimeByValue(n: int)
    ensures CleanInteger(Some(IntToString(n)), MinCookTime, MaxCookTimeLimit) ==
      if n > MaxCookTimeLimit then Err([AboveMaximum(MaxCookTimeLimit)])
      else if n < MinCookTime then Err([BelowMinimum(MinCookTime)])
      else Ok(Number(Some(n)))
  {
    var s := IntToString(n);
    DropZeroFractionNoDot(s);
    StripUnchanged(s);
    IntToStringRoundTrip(n);
  }

  /** A text without "." is left alone by the zero-fraction removal. */
  lemma {:induction false} DropZeroFractionNoDot(s: string)
    requires '.' !in s
    ensures DropZeroFraction(s) == s
  {
    if s != [] {
      assert '.' !in s[1..];
      DropZeroFractionNoDot(s[1..]);
    }
  }

  /** "0" fails on the minimum. */
  lemma CookTimeZero()
    ensures CleanInteger(Some("0"), MinCookTime, MaxCookTimeLimit) == Err([BelowMinimum(1)])
  {
    assert IntToString(0) == "0";
    CookTimeByValue(0);
  }

  /** "501" fails on the maximum. */
  lemma CookTimeAboveLimit()
    ensures CleanInteger(Some("501"), MinCookTime, MaxCookTimeLimit) == Err([AboveMaximum(500)])
  {
    assert IntToString(501) == "501";
    CookTimeByValue(501);
  }

  /** "30" is accepted as 30. */
  lemma CookTimeThirty()
    ensures CleanInteger(Some("30"), MinCookTime, MaxCookTimeLimit) == Ok(Number(Some(30)))
  {
    assert IntToString(30) == "30";
    CookTimeByValue(30);
  }

  /** "thirty" is not an integer. */
  lemma NonIntegerCookTime()
    ensures CleanInteger(Some("thirty"), MinCookTime, MaxCookTimeLimit) == Err([NotAnInteger])
  {
    DropZeroFractionNoDot("thirty");
    StripUnchanged("thirty");
    assert ParseNat("thirty").None?;
  }

  /** When no field but `f` can fail, `f` is the only failing field, once, if it fails. */
  lemma {:induction false} FailingOnly(data: Data, fields: seq<Field>, f: Field)
    requires forall g :: g != f ==> !Fails(data, g)
    requires forall i, j :: 0 <= i < j < |fields| ==> fields[i] != fields[j]
    ensures FailingFields(data, fields) == if f in fields && Fails(data, f) then [f] else []
  {
    if fields != [] {
      var rest := fields[1..];
      assert forall i, j :: 0 <= i < j < |rest| ==> rest[i] != rest[j] by {
        forall i, j | 0 <= i < j < |rest| ensures rest[i] != rest[j] {
          assert rest[i] == fields[i + 1] && rest[j] == fields[j + 1];
        }
      }
      FailingOnly(data, rest, f);
      assert fields[0] !in rest by {
        forall k | 0 <= k < |rest| ensures rest[k] != fields[0] {
          assert rest[k] == fields[k + 1];
        }
      }
      assert f in fields <==> f == fields[0] || f in rest by {
        assert fields == [fields[0]] + rest;
      }
    }
  }

  /** A submission of one field reports that field's errors and nothing else. */
  lemma SingleFieldErrors(f: Field, t: string)
    ensures Errors(map[f := t]) ==
      if CleanField(f, Some(t)).Err? then [(f, CleanField(f, Some(t)).errors)] else []
  {
    var data := map[f := t];
    forall g | g != f ensures !Fails(data, g) {
      assert Raw(data, g).None?;
    }
    assert Raw(data, f) == Some(t);
    FieldOrderComplete(f);
    FailingOnly(data, FieldOrder, f);
  }

  /** A bad cook time makes the form invalid, with its error keyed to max_cook_time and no other. */
  lemma BadCookTimeKeyed(t: string)
    requires CleanInteger(Some(t), MinCookTime, MaxCookTimeLimit).Err?
    ensures !IsValid(Bound(map[MaxCookTime := t]))
    ensures Errors(map[MaxCookTime := t]) == [(MaxCookTime, CleanInteger(Some(t), MinCookTime, MaxCookTimeLimit).errors)]
  {
    SingleFieldErrors(MaxCookTime, t);
  }

  /** "pasta" alone is a valid submission. */
  lemma NameOnlyValid()
    ensures IsValid(Bound(map[RecipeName := "pasta"]))
  {
    var t := "pasta";
    assert Strip(t) == t && |t| <= 120 && '\0' !in t by {
      StripUnchanged(t);
    }
    NameRule(t);
  }

  /** A cook time of 60 alone is a valid submission. */
  lemma CookTimeOnlyValid()
    ensures IsValid(Bound(map[MaxCookTime := "60"]))
  {
    CookTimeSixty();
    CookTimeRule("60");
  }

  /** "60" is accepted as 60. */
  lemma CookTimeSixty()
    ensures CleanInteger(Some("60"), MinCookTime, MaxCookTimeLimit) == Ok(Number(Some(60)))
  {
    assert IntToString(60) == "60";
    CookTimeByValue(60);
  }

  /** "Easy" alone is a valid submission. */
  lemma DifficultyOnlyValid()
    ensures IsValid(Bound(map[Difficulty := "Easy"]))
  {
    DifficultyRule("Easy");
  }

  /** A submission of one field is valid exactly when that field's own check passes. */
  lemma SingleFieldValidIff(f: Field, t: string)
    ensures IsValid(Bound(map[f := t])) <==> CleanField(f, Some(t)).Ok?
  {
    SingleFieldErrors(f, t);
  }

  /** A name alone is accepted when, stripped, it has at most 120 characters and no NUL. */
  lemma NameRule(t: string)
    ensures IsValid(Bound(map[RecipeName := t])) <==> |Strip(t)| <= 120 && '\0' !in Strip(t)
  {
    SingleFieldValidIff(RecipeName, t);
  }

  /** Ingredients alone are accepted when, stripped, they have at most 300 characters and no NUL. */
  lemma IngredientsRule(t: string)
    ensures IsValid(Bound(map[Ingredients := t])) <==> |Strip(t)| <= 300 && '\0' !in Strip(t)
  {
    SingleFieldValidIff(Ingredients, t);
  }

  /** A cook time alone is accepted exactly when the integer cleaning accepts it. */
  lemma CookTimeRule(t: string)
    ensures IsValid(Bound(map[MaxCookTime := t])) <==> CleanInteger(Some(t), MinCookTime, MaxCookTimeLimit).Ok?
  {
    SingleFieldValidIff(MaxCookTime, t);
  }

  /** A difficulty alone is accepted exactly when it is one of the choices. */
  lemma DifficultyRule(t: string)
    ensures IsValid(Bound(map[Difficulty := t])) <==> t in DifficultyChoices
  {
    SingleFieldValidIff(Difficulty, t);
    ChoiceRule(t, DifficultyChoices);
  }

  /** A chart type alone is accepted exactly when it is one of the choices. */
  lemma ChartRule(t: string)
    ensures IsValid(Bound(map[ChartType := t])) <==> t in ChartChoices
  {
    SingleFieldValidIff(ChartType, t);
    ChoiceRule(t, ChartChoices);
  }

  /** With "" among the choices, a value is accepted exactly when it is a choice. */
  lemma ChoiceRule(t: string, choices: seq<string>)
    requires |choices| > 0 && choices[0] == ""
    ensures CleanChoice(Some(t), choices).Ok? <==> t in choices
  {
  }

  /** Cleaning is idempotent: a cleaned text value cleans to itself. */
  lemma CleanCharIdempotent(raw: Option<string>, limit: nat)
    requires CleanChar(raw, limit).Ok?
    ensures var v := CleanChar(raw, limit).value.text; CleanChar(Some(v), limit) == Ok(Text(v))
  {
    var v := CleanChar(raw, limit).value.text;
    assert v == if raw.None? then "" else Strip(raw.value);
    StripUnchanged(v);
    assert |v| <= limit && '\0' !in v;
  }
}
