/**
 * App: the list of funds selected for reminder mails, which the fund
 * checkboxes add to and remove from, and the initial plan inputs, which
 * merge the saved inputs over a default record.
 */
module App {
  import opened Wrappers
  import opened Lists

  // ---------------------------------------------------------------------------
  // Funds selected for mail

  /** `isChecked={selectedFundsForMail.includes(fund.name)}`. */
  predicate IsChecked(selected: seq<string>, fundName: string)
  {
    fundName in selected
  }

  /**
   * The updater passed to `setSelectedFundsForMail` by `handleCheckboxChange`:
   * checking appends a name that is not yet listed, unchecking removes every
   * occurrence of it.
   */
  function UpdateSelection(prev: seq<string>, fundName: string, checked: bool): (r: seq<string>)
    ensures checked && fundName in prev ==> r == prev
    ensures checked && fundName !in prev ==> r == prev + [fundName]
    ensures !checked ==> IsSubsequence(r, prev)
    ensures !checked ==> forall n :: n in r <==> n in prev && n != fundName
    ensures !checked ==> forall n :: multiset(r)[n] == if n != fundName then multiset(prev)[n] else 0
  {
    if checked then
      if fundName in prev then prev else prev + [fundName]
    else
      var keep := (n: string) => n != fundName;
      FilterIsSubsequence(prev, keep);
      forall n ensures n in Filter(prev, keep) <==> n in prev && n != fundName {
        FilterMembership(prev, keep, n);
      }
      forall n ensures multiset(Filter(prev, keep))[n] == if n != fundName then multiset(prev)[n] else 0 {
        FilterCount(prev, keep, n);
      }
      Filter(prev, keep)
  }

  /** After an update the fund's checkbox shows what was chosen, and every other checkbox is unchanged. */
  lemma UpdateSetsCheckbox(prev: seq<string>, fundName: string, checked: bool, other: string)
    requires other != fundName
    ensures IsChecked(UpdateSelection(prev, fundName, checked), fundName) == checked
    ensures IsChecked(UpdateSelection(prev, fundName, checked), other) == IsChecked(prev, other)
  {
  }

  /** Checking twice is checking once; so is unchecking. */
  lemma {:induction false} UpdateIdempotent(prev: seq<string>, fundName: string, checked: bool)
    ensures UpdateSelection(UpdateSelection(prev, fundName, checked), fundName, checked)
         == UpdateSelection(prev, fundName, checked)
  {
    if !checked {
      FilterIdempotent(prev, (n: string) => n != fundName);
    }
  }

  /** Unchecking a fund that is not listed leaves the list as it is. */
  lemma {:induction false} UncheckAbsentUnchanged(prev: seq<string>, fundName: string)
    requires fundName !in prev
    ensures UpdateSelection(prev, fundName, false) == prev
  {
    FilterKeepsAll(prev, (n: string) => n != fundName);
  }

  /** A list without duplicates stays without duplicates, whatever is checked or unchecked. */
  lemma {:induction false} UpdateKeepsNoDuplicates(prev: seq<string>, fundName: string, checked: bool)
    requires NoDuplicates(prev)
    ensures NoDuplicates(UpdateSelection(prev, fundName, checked))
  {
    if !checked {
      FilterNoDuplicates(prev, (n: string) => n != fundName);
    }
  }

  // ---------------------------------------------------------------------------
  // Initial plan inputs

  /** A value of the saved JSON record. */
  datatype InputValue = Text(s: string) | Number(n: real) | Flag(b: bool) | Null

  /** `defaultInputs`. */
  const DefaultInputs: map<string, InputValue> := map[
    "company" := Text("manulife"),
    "plan" := Text("晉悅自願醫保靈活計劃"),
    "planCategory" := Text("智選"),
    "effectiveDate" := Text("2024-12-29"),
    "currency" := Text("HKD"),
    "sexuality" := Text("na"),
    "ward" := Text("na"),
    "planOption" := Text("22,800港元"),
    "age" := Number(40.0),
    "numberOfYears" := Number(15.0),
    "inflationRate" := Number(6.0),
    "currencyRate" := Number(7.85),
    "planFileName" := Text("晉悅自願醫保靈活計劃_智選_2024-12-29_HKD_na_na")
  ]

  /**
   * The `plan1Inputs` initialiser: `{ ...defaultInputs, ...saved }` when
   * something was saved (`None` stands for a missing or empty stored string),
   * otherwise the defaults.
   */
  function InitialInputs(saved: Option<map<string, InputValue>>): (r: map<string, InputValue>)
    ensures saved.None? ==> r == DefaultInputs
    ensures saved.Some? ==> r.Keys == DefaultInputs.Keys + saved.value.Keys
    ensures saved.Some? ==> forall k :: k in saved.value ==> r[k] == saved.value[k]
    ensures saved.Some? ==> forall k :: k in DefaultInputs && k !in saved.value ==> r[k] == DefaultInputs[k]
  {
    if saved.None? then DefaultInputs else DefaultInputs + saved.value
  }

  /** Every default key is present in the initial inputs, whatever was saved. */
  lemma InitialInputsCoverDefaults(saved: Option<map<string, InputValue>>)
    ensures DefaultInputs.Keys <= InitialInputs(saved).Keys
    ensures "inflationRate" in InitialInputs(saved) && "numberOfYears" in InitialInputs(saved)
  {
  }
}
