/**
  Feature-name classification (app_ruko.py, section 4 of the page): the model's
  ordered column names are split into numeric inputs and one-hot groups keyed
  by the text before the first underscore.
 */
module Schema {
  import opened Text
  import opened Sequences

  /** Words that mark a column as a measurement when they occur in its lower-cased name. */
  const NUMERIC_KEYWORDS: seq<string> :=
    ["luas", "lebar", "panjang", "tinggi", "row", "lat", "long", "jumlah", "nilai", "harga", "m2", "tahun"]

  /** Some word of `words` occurs in `s`. */
  predicate ContainsAny(s: string, words: seq<string>)
  {
    words != [] && (Contains(s, words[0]) || ContainsAny(s, words[1..]))
  }

  /** `ContainsAny` is Python's `any(k in s for k in words)`. */
  lemma {:induction false} ContainsAnyExists(s: string, words: seq<string>)
    ensures ContainsAny(s, words) <==> exists j :: 0 <= j < |words| && Contains(s, words[j])
    decreases |words|
  {
    if words != [] {
      ContainsAnyExists(s, words[1..]);
      assert forall j :: 0 < j < |words| ==> words[j] == words[1..][j - 1];
    }
  }

  /** `any(k in f_lower for k in numeric_keywords)`: some keyword occurs, as a plain substring, in the lower-cased name. */
  predicate HasNumericKeyword(name: string)
  {
    ContainsAny(Lower(name), NUMERIC_KEYWORDS)
  }

  /** The keyword test holds exactly when one of the twelve keywords occurs in the lower-cased name. */
  lemma KeywordRule(name: string)
    ensures HasNumericKeyword(name) <==>
      exists j :: 0 <= j < |NUMERIC_KEYWORDS| && Contains(Lower(name), NUMERIC_KEYWORDS[j])
  {
    ContainsAnyExists(Lower(name), NUMERIC_KEYWORDS);
  }

  /**
    A column is numeric when it mentions a keyword or has no underscore at all;
    so any column that is not numeric has an underscore after its first token.
   */
  predicate IsNumeric(name: string): (b: bool)
    ensures '_' !in name ==> b
    ensures !b ==> |FirstToken(name)| < |name| && name[|FirstToken(name)|] == '_'
  {
    HasNumericKeyword(name) || '_' !in name
  }

  /** The group a one-hot column belongs to: `name.split("_")[0]`. */
  function GroupKey(name: string): string
  {
    FirstToken(name)
  }

  /** `name` is a one-hot column of the group `key`. */
  predicate InGroup(name: string, key: string)
  {
    !IsNumeric(name) && GroupKey(name) == key
  }

  /** Some column of `names` belongs to the group `key`. */
  predicate HasGroup(names: seq<string>, key: string)
  {
    exists i :: 0 <= i < |names| && InGroup(names[i], key)
  }

  /** Reference definition: the numeric columns, in column order. */
  function NumericOf(names: seq<string>): seq<string>
  {
    Filter(names, IsNumeric)
  }

  /** Membership in the group `key`, as a test on names. */
  function InGroupTest(key: string): string -> bool
  {
    name => InGroup(name, key)
  }

  /** Reference definition: the members of group `key`, in column order. */
  function MembersOf(names: seq<string>, key: string): seq<string>
  {
    Filter(names, InGroupTest(key))
  }

  /**
    Reference definition: the group keys in order of first occurrence. The
    result names every group once and nothing else.
   */
  function KeysOf(names: seq<string>): (keys: seq<string>)
    ensures Distinct(keys)
    ensures forall k :: k in keys <==> HasGroup(names, k)
    decreases |names|
  {
    if names == [] then []
    else
      var init, last := names[..|names| - 1], names[|names| - 1];
      assert forall i :: 0 <= i < |init| ==> init[i] == names[i];
      var keys := KeysOf(init);
      if IsNumeric(last) || GroupKey(last) in keys then keys else keys + [GroupKey(last)]
  }

  /** An insertion-ordered dictionary from group key to member list, as an association list. */
  type Groups = seq<(string, seq<string>)>

  /** The dictionary's keys, in insertion order. */
  function Keys(groups: Groups): seq<string>
  {
    seq(|groups|, j requires 0 <= j < |groups| => groups[j].0)
  }

  /** All members of all groups, group after group. */
  function Flatten(groups: Groups): seq<string>
  {
    if groups == [] then [] else groups[0].1 + Flatten(groups[1..])
  }

  /** `groups` is exactly the dictionary of one-hot groups that `names` gives rise to. */
  predicate Describes(groups: Groups, names: seq<string>)
  {
    && Keys(groups) == KeysOf(names)
    && forall j :: 0 <= j < |groups| ==> groups[j].1 == MembersOf(names, groups[j].0)
  }

  /**
    `groups.setdefault(key, []).append(name)`: the member list of `key` grows by
    `name`, or a new group `[name]` is added at the end; nothing else changes.
   */
  function SetDefaultAppend(groups: Groups, key: string, name: string): (r: Groups)
    requires Distinct(Keys(groups))
    ensures key in Keys(groups) ==>
      && |r| == |groups|
      && forall j :: 0 <= j < |r| ==> r[j] == if groups[j].0 == key then (key, groups[j].1 + [name]) else groups[j]
    ensures key !in Keys(groups) ==> r == groups + [(key, [name])]
  {
    if groups == [] then [(key, [name])]
    else
      assert Keys(groups) == [groups[0].0] + Keys(groups[1..]);
      if groups[0].0 == key then
        assert forall j :: 0 < j < |groups| ==> groups[j].0 == Keys(groups)[j] != Keys(groups)[0];
        [(key, groups[0].1 + [name])] + groups[1..]
      else
        assert Keys(groups[1..]) == Keys(groups)[1..];
        [groups[0]] + SetDefaultAppend(groups[1..], key, name)
  }

  /** Group members of a column list extended by one column. */
  lemma MembersSnoc(names: seq<string>, x: string, key: string)
    ensures MembersOf(names + [x], key) == MembersOf(names, key) + (if InGroup(x, key) then [x] else [])
  {
    FilterSnoc(names, x, InGroupTest(key));
  }

  /** Group keys of a column list extended by one column. */
  lemma KeysSnoc(names: seq<string>, x: string)
    ensures KeysOf(names + [x]) ==
      if IsNumeric(x) || GroupKey(x) in KeysOf(names) then KeysOf(names) else KeysOf(names) + [GroupKey(x)]
  {
    assert (names + [x])[..|names|] == names;
  }

  /** A key that no column belongs to has no members. */
  lemma MembersOfAbsent(names: seq<string>, key: string)
    requires !HasGroup(names, key)
    ensures MembersOf(names, key) == []
  {
    FilterNone(names, InGroupTest(key));
  }

  /** A numeric column leaves the dictionary as it is. */
  lemma DescribesSnocNumeric(groups: Groups, names: seq<string>, x: string)
    requires Describes(groups, names) && IsNumeric(x)
    ensures Describes(groups, names + [x])
  {
    KeysSnoc(names, x);
    forall j | 0 <= j < |groups|
      ensures groups[j].1 == MembersOf(names + [x], groups[j].0)
    {
      MembersSnoc(names, x, groups[j].0);
    }
  }

  /** A one-hot column of a group already present joins the end of that group. */
  lemma DescribesSnocJoin(groups: Groups, names: seq<string>, x: string)
    requires Describes(groups, names) && !IsNumeric(x) && GroupKey(x) in Keys(groups)
    ensures Describes(SetDefaultAppend(groups, GroupKey(x), x), names + [x])
  {
    KeysSnoc(names, x);
    var r := SetDefaultAppend(groups, GroupKey(x), x);
    assert Keys(r) == Keys(groups);
    forall j | 0 <= j < |r|
      ensures r[j].1 == MembersOf(names + [x], r[j].0)
    {
      MembersSnoc(names, x, groups[j].0);
    }
  }

  /** A one-hot column of a new group opens that group at the end. */
  lemma DescribesSnocOpen(groups: Groups, names: seq<string>, x: string)
    requires Describes(groups, names) && !IsNumeric(x) && GroupKey(x) !in Keys(groups)
    ensures Describes(SetDefaultAppend(groups, GroupKey(x), x), names + [x])
  {
    KeysSnoc(names, x);
    var r := SetDefaultAppend(groups, GroupKey(x), x);
    assert Keys(r) == Keys(groups) + [GroupKey(x)];
    forall j | 0 <= j < |groups|
      ensures r[j].1 == MembersOf(names + [x], r[j].0)
    {
      MembersSnoc(names, x, groups[j].0);
      assert Keys(groups)[j] == groups[j].0 != GroupKey(x);
      assert r[j] == groups[j];
    }
    MembersSnoc(names, x, GroupKey(x));
    MembersOfAbsent(names, GroupKey(x));
    assert r[|groups|] == (GroupKey(x), [x]);
  }

  /** The classification loop of app_ruko.py: one pass over the columns, appending as it goes. */
  method Classify(names: seq<string>) returns (numeric: seq<string>, groups: Groups)
    ensures numeric == NumericOf(names)
    ensures Describes(groups, names)
    ensures names == [] ==> numeric == [] && groups == []
  {
    numeric, groups := [], [];
    for i := 0 to |names|
      invariant numeric == NumericOf(names[..i])
      invariant Describes(groups, names[..i])
    {
      var f := names[i];
      var isKeywordNumeric := HasNumericKeyword(f);
      var noUnderscore := '_' !in f;
      assert names[..i + 1] == names[..i] + [f];
      FilterSnoc(names[..i], f, IsNumeric);
      if isKeywordNumeric || noUnderscore {
        DescribesSnocNumeric(groups, names[..i], f);
        numeric := numeric + [f];
      } else if FirstToken(f) in Keys(groups) {
        DescribesSnocJoin(groups, names[..i], f);
        groups := SetDefaultAppend(groups, FirstToken(f), f);
      } else {
        DescribesSnocOpen(groups, names[..i], f);
        groups := SetDefaultAppend(groups, FirstToken(f), f);
      }
    }
    assert names[..|names|] == names;
  }

  /** How often `x` occurs across all groups of a dictionary of member lists. */
  lemma {:induction false} FlattenCount(groups: Groups, names: seq<string>, x: string)
    requires Distinct(Keys(groups))
    requires forall j :: 0 <= j < |groups| ==> groups[j].1 == MembersOf(names, groups[j].0)
    ensures multiset(Flatten(groups))[x] ==
      if !IsNumeric(x) && GroupKey(x) in Keys(groups) then multiset(names)[x] else 0
    decreases |groups|
  {
    if groups != [] {
      var key := groups[0].0;
      assert Keys(groups) == [key] + Keys(groups[1..]);
      assert Keys(groups[1..]) == Keys(groups)[1..];
      FlattenCount(groups[1..], names, x);
      FilterCount(names, x, InGroupTest(key));
      assert multiset(Flatten(groups)) == multiset(groups[0].1) + multiset(Flatten(groups[1..]));
      assert multiset(groups[0].1)[x] == if InGroup(x, key) then multiset(names)[x] else 0;
      assert key !in Keys(groups[1..]) by {
        forall j | 0 <= j < |groups[1..]|
          ensures Keys(groups[1..])[j] != key
        {
          assert Keys(groups)[j + 1] != Keys(groups)[0];
        }
      }
    }
  }

  /**
    Partition: the numeric list and the groups together hold every column exactly
    as often as the model lists it; nothing is lost and nothing is duplicated.
   */
  lemma Partition(names: seq<string>, groups: Groups)
    requires Describes(groups, names)
    ensures multiset(NumericOf(names)) + multiset(Flatten(groups)) == multiset(names)
  {
    forall x
      ensures multiset(NumericOf(names))[x] + multiset(Flatten(groups))[x] == multiset(names)[x]
    {
      FilterCount(names, x, IsNumeric);
      FlattenCount(groups, names, x);
      if !IsNumeric(x) && x in names {
        var i :| 0 <= i < |names| && names[i] == x;
        assert HasGroup(names, GroupKey(x));
      }
    }
  }

  /**
    Every column lands in one place: a numeric column is in the numeric list and
    in no group; any other column is not in the numeric list and is in exactly
    the group of its key.
   */
  lemma Placement(names: seq<string>, groups: Groups)
    requires Describes(groups, names)
    ensures forall x :: x in names && IsNumeric(x) ==>
      x in NumericOf(names) && forall j :: 0 <= j < |groups| ==> x !in groups[j].1
    ensures forall x :: x in names && !IsNumeric(x) ==>
      x !in NumericOf(names) && GroupKey(x) in Keys(groups) &&
      forall j :: 0 <= j < |groups| ==> (x in groups[j].1 <==> groups[j].0 == GroupKey(x))
  {
    forall x | x in names
      ensures IsNumeric(x) ==> x in NumericOf(names)
      ensures !IsNumeric(x) ==> GroupKey(x) in Keys(groups)
      ensures forall j :: 0 <= j < |groups| ==> (x in groups[j].1 <==> InGroup(x, groups[j].0))
    {
      if IsNumeric(x) {
        FilterKeeps(names, x, IsNumeric);
      } else {
        var i :| 0 <= i < |names| && names[i] == x;
        assert HasGroup(names, GroupKey(x));
      }
      forall j | 0 <= j < |groups| && InGroup(x, groups[j].0)
        ensures x in groups[j].1
      {
        FilterKeeps(names, x, InGroupTest(groups[j].0));
      }
    }
  }

  /**
    Shape of every group: it is not empty, its key has no underscore, and each
    member is a non-numeric column that starts with the key and an underscore.
   */
  lemma GroupShape(names: seq<string>, groups: Groups)
    requires Describes(groups, names)
    ensures forall j :: 0 <= j < |groups| ==> |groups[j].1| > 0 && '_' !in groups[j].0
    ensures forall j, m :: 0 <= j < |groups| && m in groups[j].1 ==>
      !IsNumeric(m) && groups[j].0 + "_" <= m
  {
    forall j | 0 <= j < |groups|
      ensures |groups[j].1| > 0 && '_' !in groups[j].0
    {
      var k := groups[j].0;
      assert Keys(groups)[j] == k;
      assert HasGroup(names, k);
      var i :| 0 <= i < |names| && InGroup(names[i], k);
      FilterKeeps(names, names[i], InGroupTest(k));
    }
    forall j, m | 0 <= j < |groups| && m in groups[j].1
      ensures !IsNumeric(m) && groups[j].0 + "_" <= m
    {
      var k := groups[j].0;
      assert InGroup(m, k);
      assert (k + "_") == m[..|k| + 1];
    }
  }

  /**
    Order preservation: the numeric list and every member list keep the column
    order, and a group key is listed after another only if the other's first
    column comes earlier.
   */
  lemma OrderPreserved(names: seq<string>, groups: Groups)
    requires Describes(groups, names)
    ensures IsSubsequence(NumericOf(names), names)
    ensures forall j :: 0 <= j < |groups| ==> IsSubsequence(groups[j].1, names)
    ensures forall j1, j2, i :: 0 <= j1 < j2 < |groups| && 0 <= i < |names| && InGroup(names[i], groups[j2].0) ==>
      HasGroup(names[..i], groups[j1].0)
  {
    FilterIsSubsequence(names, IsNumeric);
    forall j | 0 <= j < |groups|
      ensures IsSubsequence(groups[j].1, names)
    {
      FilterIsSubsequence(names, InGroupTest(groups[j].0));
    }
    forall j1, j2, i | 0 <= j1 < j2 < |groups| && 0 <= i < |names| && InGroup(names[i], groups[j2].0)
      ensures HasGroup(names[..i], groups[j1].0)
    {
      assert Keys(groups)[j1] == groups[j1].0 && Keys(groups)[j2] == groups[j2].0;
      KeysFirstOccurrence(names, j1, j2, i);
    }
  }

  /** Keys are listed in order of first occurrence. */
  lemma {:induction false} KeysFirstOccurrence(names: seq<string>, j1: nat, j2: nat, i: nat)
    requires j1 < j2 < |KeysOf(names)| && i < |names| && InGroup(names[i], KeysOf(names)[j2])
    ensures HasGroup(names[..i], KeysOf(names)[j1])
    decreases |names|
  {
    var init, last := names[..|names| - 1], names[|names| - 1];
    var keys := KeysOf(init);
    assert forall t :: 0 <= t < |init| ==> init[t] == names[t];
    assert names == init + [last];
    KeysSnoc(init, last);
    if i < |init| {
      assert init[..i] == names[..i];
      // a key added by `last` has no earlier column in its group
      assert j2 < |keys|;
      KeysFirstOccurrence(init, j1, j2, i);
    } else {
      assert names[..i] == init;
      assert KeysOf(names)[j1] == keys[j1];
    }
  }
}
