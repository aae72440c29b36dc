/** The checks that `get_city`, `get_month` and `get_day` apply to one line of
    user input: strip it, lower-case it, and accept it when it is one of a
    fixed set of names. The retry loop around them is console interaction. */
module Validation {
  import opened Wrappers
  import opened Text

  const Cities: set<string> := {"new york city", "chicago", "washington"}
  const MonthChoices: set<string> :=
    {"january", "february", "march", "april", "may", "june", "all"}
  const DayChoices: set<string> :=
    {"monday", "tuesday", "wednesday", "thursday", "friday", "saturday", "sunday", "all"}

  /** `input.strip().lower()`: no longer than the input, without white
      space at either end and without capital A-Z. */
  function Normalize(input: string): (r: string)
    ensures |r| <= |input|
    ensures r == [] || (!IsSpace(r[0]) && !IsSpace(r[|r| - 1]))
    ensures forall k :: 0 <= k < |r| ==> !('A' <= r[k] <= 'Z')
  {
    LowerKeepsSpace(Strip(input));
    Lower(Strip(input))
  }

  /** The normalised input if it is one of `choices`, and nothing otherwise. */
  function Choose(input: string, choices: set<string>): (r: Option<string>)
    ensures r.Some? <==> Normalize(input) in choices
    ensures r.Some? ==> r.value == Normalize(input) && r.value in choices
  {
    var v := Normalize(input);
    if v in choices then Some(v) else None
  }

  function ValidCity(input: string): (r: Option<string>)
    ensures r.Some? <==> Normalize(input) in Cities
    ensures r.Some? ==> r.value == Normalize(input) && r.value in Cities
  {
    Choose(input, Cities)
  }

  function ValidMonth(input: string): (r: Option<string>)
    ensures r.Some? <==> Normalize(input) in MonthChoices
    ensures r.Some? ==> r.value == Normalize(input) && r.value in MonthChoices
  {
    Choose(input, MonthChoices)
  }

  function ValidDay(input: string): (r: Option<string>)
    ensures r.Some? <==> Normalize(input) in DayChoices
    ensures r.Some? ==> r.value == Normalize(input) && r.value in DayChoices
  {
    Choose(input, DayChoices)
  }

  /** Every accepted name is non-empty and has no white space at either end. */
  ghost predicate Trimmed(choices: set<string>) {
    forall c :: c in choices ==> c != [] && !IsSpace(c[0]) && !IsSpace(c[|c| - 1])
  }

  /** Each name starts and ends with a lower-case letter. */
  ghost predicate LetterEnds(choices: set<string>) {
    forall c :: c in choices ==> c != [] && 'a' <= c[0] <= 'z' && 'a' <= c[|c| - 1] <= 'z'
  }

  lemma LetterEndsTrimmed(choices: set<string>)
    requires LetterEnds(choices)
    ensures Trimmed(choices)
  {
  }

  lemma CitiesTrimmed()
    ensures Trimmed(Cities)
  {
    assert LetterEnds(Cities);
    LetterEndsTrimmed(Cities);
  }

  lemma MonthChoicesTrimmed()
    ensures Trimmed(MonthChoices)
  {
    assert LetterEnds(MonthChoices);
    LetterEndsTrimmed(MonthChoices);
  }

  lemma DayChoicesTrimmed()
    ensures Trimmed(DayChoices)
  {
    assert LetterEnds(DayChoices);
    LetterEndsTrimmed(DayChoices);
  }

  /** Normalising twice is normalising once. */
  lemma {:induction false} NormalizeIdempotent(s: string)
    ensures Normalize(Normalize(s)) == Normalize(s)
  {
    var t := Strip(s);
    LowerKeepsSpace(t);
    StripPadded([], Lower(t), []);
    assert [] + Lower(t) + [] == Lower(t);
  }

  /** A value the check accepted is accepted again, as itself. */
  lemma {:induction false} AcceptedIsFixedPoint(input: string, choices: set<string>)
    requires Choose(input, choices).Some?
    ensures Choose(Choose(input, choices).value, choices) == Choose(input, choices)
  {
    NormalizeIdempotent(input);
  }

  /** Surrounding white space and upper case never matter: a name of the set
      written in any mixture of case and padded with white space is accepted
      as that name. */
  lemma {:induction false} AcceptsPaddedAnyCase(p: string, t: string, q: string, choices: set<string>)
    requires Trimmed(choices)
    requires forall k :: 0 <= k < |p| ==> IsSpace(p[k])
    requires forall k :: 0 <= k < |q| ==> IsSpace(q[k])
    requires Lower(t) in choices
    ensures Choose(p + t + q, choices) == Some(Lower(t))
  {
    LowerKeepsSpace(t);
    StripPadded(p, t, q);
  }

  /** The three checks as they apply to the program's own name sets. */
  lemma CityAcceptsPaddedAnyCase(p: string, t: string, q: string)
    requires forall k :: 0 <= k < |p| ==> IsSpace(p[k])
    requires forall k :: 0 <= k < |q| ==> IsSpace(q[k])
    requires Lower(t) in Cities
    ensures ValidCity(p + t + q) == Some(Lower(t))
  {
    CitiesTrimmed();
    AcceptsPaddedAnyCase(p, t, q, Cities);
  }

  lemma MonthAcceptsPaddedAnyCase(p: string, t: string, q: string)
    requires forall k :: 0 <= k < |p| ==> IsSpace(p[k])
    requires forall k :: 0 <= k < |q| ==> IsSpace(q[k])
    requires Lower(t) in MonthChoices
    ensures ValidMonth(p + t + q) == Some(Lower(t))
  {
    MonthChoicesTrimmed();
    AcceptsPaddedAnyCase(p, t, q, MonthChoices);
  }

  lemma DayAcceptsPaddedAnyCase(p: string, t: string, q: string)
    requires forall k :: 0 <= k < |p| ==> IsSpace(p[k])
    requires forall k :: 0 <= k < |q| ==> IsSpace(q[k])
    requires Lower(t) in DayChoices
    ensures ValidDay(p + t + q) == Some(Lower(t))
  {
    DayChoicesTrimmed();
    AcceptsPaddedAnyCase(p, t, q, DayChoices);
  }
}
