/**
  Building the model's input row (app_ruko.py, sections 4 to 6 of the page):
  every column starts at 0, numeric columns take the number inputs' values,
  each one-hot group gets a 1 at the chosen member, and the dictionary is read
  back in the model's column order.

  The widgets are parameters: `entered` holds the values of the number inputs
  the user has changed (keyed by column name) and `choices` the index picked in
  each drop-down the user has changed (keyed by group key).
 */
module Encoding {
  import opened Text
  import opened Sequences
  import opened Schema

  /**
    Starting value of a number input: 60 when the name, as written, contains
    "luas", else 6 when it contains "lebar" or "row", else 0. Every default is
    within the input's minimum of 0.
   */
  function DefaultValue(name: string): (v: real)
    ensures v >= 0.0
  {
    if Contains(name, "luas") then 60.0
    else if Contains(name, "lebar") || Contains(name, "row") then 6.0
    else 0.0
  }

  /** What the number input of `name` holds: the user's value, or its default when untouched. */
  function NumberInput(entered: map<string, real>, name: string): real
  {
    if name in entered then entered[name] else DefaultValue(name)
  }

  /**
    What a number input holds: the value the user entered, otherwise its
    default; never below 0 when the entered values respect the widget minimum.
   */
  lemma NumberInputRange(entered: map<string, real>, name: string)
    ensures name !in entered ==> NumberInput(entered, name) == DefaultValue(name)
    ensures name in entered ==> NumberInput(entered, name) == entered[name]
    ensures WithinMinimum(entered) ==> NumberInput(entered, name) >= 0.0
  {
  }

  /** The number inputs have a minimum of 0, so no value they hand back is negative. */
  predicate WithinMinimum(entered: map<string, real>)
  {
    forall f | f in entered :: entered[f] >= 0.0
  }

  /** The index a drop-down holds: the user's pick, or 0 when untouched. */
  function ChoiceIndex(choices: map<string, nat>, key: string): nat
  {
    if key in choices then choices[key] else 0
  }

  /** A drop-down only offers `range(len(options))`, so every pick is a valid member index. */
  predicate ChoicesInRange(names: seq<string>, choices: map<string, nat>)
  {
    forall k | k in choices && MembersOf(names, k) != [] :: choices[k] < |MembersOf(names, k)|
  }

  /** `name` is the member its group's drop-down points at. */
  predicate IsChosen(names: seq<string>, choices: map<string, nat>, name: string)
  {
    var members := MembersOf(names, GroupKey(name));
    var c := ChoiceIndex(choices, GroupKey(name));
    !IsNumeric(name) && c < |members| && members[c] == name
  }

  /**
    Reference definition of the finished input dictionary: one entry per column;
    a numeric column holds its input, a one-hot column 1 if it is chosen and 0
    otherwise.
   */
  function InputVector(names: seq<string>, entered: map<string, real>, choices: map<string, nat>): (x: map<string, real>)
    ensures x.Keys == ColumnSet(names)
    ensures WithinMinimum(entered) ==> forall f | f in x :: x[f] >= 0.0
  {
    map f | f in names :: if IsNumeric(f) then NumberInput(entered, f) else if IsChosen(names, choices, f) then 1.0 else 0.0
  }

  /** A numeric column is in the finished dictionary exactly when it is a column, and then holds its number input. */
  lemma NumericEntry(names: seq<string>, entered: map<string, real>, choices: map<string, nat>, f: string)
    requires IsNumeric(f)
    ensures f in InputVector(names, entered, choices) <==> f in names
    ensures f in names ==> InputVector(names, entered, choices)[f] == NumberInput(entered, f)
  {
  }

  /** The columns of `names` as a set. */
  function ColumnSet(names: seq<string>): set<string>
  {
    set f | f in names
  }

  /**
    Loop invariant of the drop-down loop: numeric columns hold their inputs and
    the groups whose keys are in `done` have their chosen member set to 1.
   */
  ghost predicate SetUpTo(x: map<string, real>, names: seq<string>, entered: map<string, real>,
                          choices: map<string, nat>, done: seq<string>)
  {
    && x.Keys == ColumnSet(names)
    && forall f | f in names :: x[f] ==
         if IsNumeric(f) then NumberInput(entered, f)
         else if GroupKey(f) in done && IsChosen(names, choices, f) then 1.0
         else 0.0
  }

  /** Loop invariant of the number-input loop: the columns in `done` hold their inputs, the rest 0. */
  ghost predicate NumbersUpTo(x: map<string, real>, names: seq<string>, entered: map<string, real>, done: seq<string>)
  {
    && x.Keys == ColumnSet(names)
    && forall f | f in names :: x[f] == if f in done then NumberInput(entered, f) else 0.0
  }

  /** Writing the input of one more numeric column. */
  lemma NumbersStep(x: map<string, real>, names: seq<string>, entered: map<string, real>, done: seq<string>, f: string)
    requires NumbersUpTo(x, names, entered, done) && f in names
    ensures NumbersUpTo(x[f := NumberInput(entered, f)], names, entered, done + [f])
  {
  }

  /** After the number-input loop no group has been set yet. */
  lemma NumericDone(x: map<string, real>, names: seq<string>, entered: map<string, real>, choices: map<string, nat>)
    requires NumbersUpTo(x, names, entered, NumericOf(names))
    ensures SetUpTo(x, names, entered, choices, [])
  {
    forall f | f in names
      ensures f in NumericOf(names) <==> IsNumeric(f)
    {
      if IsNumeric(f) {
        FilterKeeps(names, f, IsNumeric);
      }
    }
  }

  /** Once every group has been set, the dictionary is the reference one. */
  lemma GroupsDone(x: map<string, real>, names: seq<string>, entered: map<string, real>, choices: map<string, nat>)
    requires SetUpTo(x, names, entered, choices, KeysOf(names))
    ensures x == InputVector(names, entered, choices)
  {
    var v := InputVector(names, entered, choices);
    assert v.Keys == ColumnSet(names);
    forall f | f in names
      ensures x[f] == v[f]
    {
      if !IsNumeric(f) {
        var i :| 0 <= i < |names| && names[i] == f;
        assert HasGroup(names, GroupKey(f));
        assert GroupKey(f) in KeysOf(names);
      }
    }
  }

  /** Where the drop-down of the `j`-th group points: a one-hot column of that group, and the chosen one. */
  lemma ChosenColumn(names: seq<string>, groups: Groups, choices: map<string, nat>, j: nat,
                     prefix: string, cols: seq<string>)
    requires Describes(groups, names) && ChoicesInRange(names, choices)
    requires j < |groups| && groups[j] == (prefix, cols)
    ensures prefix !in Keys(groups)[..j]
    ensures ChoiceIndex(choices, prefix) < |cols|
    ensures cols[ChoiceIndex(choices, prefix)] in names
    ensures InGroup(cols[ChoiceIndex(choices, prefix)], prefix)
    ensures IsChosen(names, choices, cols[ChoiceIndex(choices, prefix)])
  {
    GroupShape(names, groups);
    assert Keys(groups)[j] == prefix;
    assert Distinct(KeysOf(names));
    var c := cols[ChoiceIndex(choices, prefix)];
    assert c in cols;
  }

  /** Writing 1 at the chosen column of the `j`-th group. */
  lemma SetStep(x: map<string, real>, names: seq<string>, entered: map<string, real>,
                choices: map<string, nat>, keys: seq<string>, j: nat, c: string)
    requires j < |keys| && SetUpTo(x, names, entered, choices, keys[..j])
    requires keys[j] !in keys[..j] && c in names && InGroup(c, keys[j]) && IsChosen(names, choices, c)
    ensures SetUpTo(x[c := 1.0], names, entered, choices, keys[..j + 1])
  {
    assert keys[..j + 1] == keys[..j] + [keys[j]];
  }

  /**
    The page's writes into `X_input`: seed every column with 0, overwrite each
    numeric column with its input, then write 1 at the chosen member of each group.
   */
  method BuildInput(names: seq<string>, numeric: seq<string>, groups: Groups,
                    entered: map<string, real>, choices: map<string, nat>) returns (x: map<string, real>)
    requires numeric == NumericOf(names) && Describes(groups, names)
    requires WithinMinimum(entered) && ChoicesInRange(names, choices)
    ensures x.Keys == ColumnSet(names)
    ensures x == InputVector(names, entered, choices)
  {
    x := map f | f in names :: 0.0;
    for i := 0 to |numeric|
      invariant NumbersUpTo(x, names, entered, numeric[..i])
    {
      var f := numeric[i];
      var defVal := DefaultValue(f);
      var value := if f in entered then entered[f] else defVal;
      NumbersStep(x, names, entered, numeric[..i], f);
      assert numeric[..i + 1] == numeric[..i] + [f];
      x := x[f := value];
    }
    assert numeric[..|numeric|] == numeric;
    NumericDone(x, names, entered, choices);
    ghost var keys := Keys(groups);
    for j := 0 to |groups|
      invariant SetUpTo(x, names, entered, choices, keys[..j])
    {
      var (prefix, cols) := groups[j];
      ChosenColumn(names, groups, choices, j, prefix, cols);
      var choiceIdx := ChoiceIndex(choices, prefix);
      var actualColName := cols[choiceIdx];
      SetStep(x, names, entered, choices, keys, j, actualColName);
      x := x[actualColName := 1.0];
    }
    assert keys[..|groups|] == keys;
    GroupsDone(x, names, entered, choices);
  }

  /** `pd.DataFrame([X_input])[feature_names]`: the values read back in column order. */
  function Row(x: map<string, real>, names: seq<string>): (row: seq<real>)
    requires forall f | f in names :: f in x
    ensures |row| == |names|
    ensures forall i :: 0 <= i < |names| ==> row[i] == x[names[i]]
  {
    seq(|names|, i requires 0 <= i < |names| => x[names[i]])
  }

  /**
    One-hot: in every group the member at the chosen index holds 1 and every
    other member holds 0.
   */
  lemma OneHot(names: seq<string>, entered: map<string, real>, choices: map<string, nat>, key: string)
    requires Distinct(names) && ChoicesInRange(names, choices) && MembersOf(names, key) != []
    ensures ChoiceIndex(choices, key) < |MembersOf(names, key)|
    ensures forall j :: 0 <= j < |MembersOf(names, key)| ==>
      InputVector(names, entered, choices)[MembersOf(names, key)[j]] ==
        if j == ChoiceIndex(choices, key) then 1.0 else 0.0
  {
    var members := MembersOf(names, key);
    var c := ChoiceIndex(choices, key);
    FilterDistinct(names, InGroupTest(key));
    forall j | 0 <= j < |members|
      ensures InputVector(names, entered, choices)[members[j]] == if j == c then 1.0 else 0.0
    {
      var m := members[j];
      assert m in members;
      assert m in names && InGroup(m, key);
      assert IsChosen(names, choices, m) <==> members[c] == m;
    }
  }

  /** Untouched drop-downs select their group's first member. */
  lemma FirstOptionByDefault(names: seq<string>, entered: map<string, real>, key: string)
    requires Distinct(names) && MembersOf(names, key) != []
    ensures InputVector(names, entered, map[])[MembersOf(names, key)[0]] == 1.0
    ensures forall j :: 0 < j < |MembersOf(names, key)| ==>
      InputVector(names, entered, map[])[MembersOf(names, key)[j]] == 0.0
  {
    OneHot(names, entered, map[], key);
  }

  /**
    Numeric columns hold the number inputs: the user's value when there is one
    and the default otherwise, never below 0; one-hot columns hold only 0 or 1.
   */
  lemma InputValues(names: seq<string>, entered: map<string, real>, choices: map<string, nat>)
    requires WithinMinimum(entered)
    ensures forall f | f in names && IsNumeric(f) ::
      InputVector(names, entered, choices)[f] >= 0.0 &&
      InputVector(names, entered, choices)[f] == (if f in entered then entered[f] else DefaultValue(f))
    ensures forall f | f in names && !IsNumeric(f) ::
      InputVector(names, entered, choices)[f] == 0.0 || InputVector(names, entered, choices)[f] == 1.0
  {
  }

  /**
    The row handed to the model has one value per column, in column order, and
    in it every group is one-hot: exactly one of its columns holds 1, the rest 0.
   */
  lemma RowOneHot(names: seq<string>, entered: map<string, real>, choices: map<string, nat>, key: string)
    requires Distinct(names) && ChoicesInRange(names, choices) && HasGroup(names, key)
    ensures var row := Row(InputVector(names, entered, choices), names);
      && |row| == |names|
      && (exists i :: 0 <= i < |names| && InGroup(names[i], key) && row[i] == 1.0)
      && (forall i, i' ::
            0 <= i < |names| && 0 <= i' < |names| && InGroup(names[i], key) && InGroup(names[i'], key) &&
            row[i] == 1.0 && row[i'] == 1.0
            ==> i == i')
      && (forall i :: 0 <= i < |names| && InGroup(names[i], key) ==> row[i] == 0.0 || row[i] == 1.0)
  {
    var x := InputVector(names, entered, choices);
    var row := Row(x, names);
    var members := MembersOf(names, key);
    var i0 :| 0 <= i0 < |names| && InGroup(names[i0], key);
    FilterKeeps(names, names[i0], InGroupTest(key));
    OneHot(names, entered, choices, key);
    var c := ChoiceIndex(choices, key);
    var chosen := members[c];
    assert chosen in members;
    var i :| 0 <= i < |names| && names[i] == chosen;
    assert row[i] == x[chosen] == 1.0;
    forall i1 | 0 <= i1 < |names| && InGroup(names[i1], key) && row[i1] == 1.0
      ensures names[i1] == chosen
    {
      assert IsChosen(names, choices, names[i1]);
    }
  }

  /** Only numeric columns have a non-zero default, so defaults never land on a one-hot column. */
  lemma DefaultMarksNumeric(name: string)
    requires DefaultValue(name) != 0.0
    ensures IsNumeric(name)
  {
    var word, j := "luas", 0;
    if !Contains(name, "luas") {
      if Contains(name, "lebar") {
        word, j := "lebar", 1;
      } else {
        word, j := "row", 4;
      }
    }
    assert NUMERIC_KEYWORDS[j] == word;
    ContainsLower(name, word);
    ContainsAnyAt(Lower(name), NUMERIC_KEYWORDS, j);
  }

  /** A word of the list that occurs in `s` makes `ContainsAny` true. */
  lemma {:induction false} ContainsAnyAt(s: string, words: seq<string>, j: nat)
    requires j < |words| && Contains(s, words[j])
    ensures ContainsAny(s, words)
  {
    if j > 0 {
      ContainsAnyAt(s, words[1..], j - 1);
    }
  }
}
