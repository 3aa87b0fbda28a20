/**
  The option labels of a categorical dropdown (app_ruko.py, line 147): each
  member column of a group is shown without its `key + "_"` prefix.
  `str.title()`, applied afterwards for display, is not part of this model.
 */
module Labels {
  import opened Text
  import opened Sequences
  import opened Schema

  /** The text the page deletes from a member's name: the group key and its underscore. */
  function Marker(key: string): (m: string)
    ensures |m| == |key| + 1 && m[|key|] == '_'
  {
    key + "_"
  }

  /**
    As written: `c.replace(prefix + "_", "")`, which deletes every occurrence
    of the marker, not only the leading one.
   */
  function OptionLabel(key: string, c: string): (shown: string)
    ensures |shown| <= |c|
    ensures Marker(key) <= c ==> |shown| <= |c| - |Marker(key)|
  {
    ReplaceAll(c, Marker(key), "")
  }

  /**
    The label meant for a member: its name with the leading marker cut off.
    Every member of a group starts with the marker; anything else is shown
    unchanged.
   */
  function StrippedLabel(key: string, c: string): (shown: string)
    ensures Marker(key) <= c ==> Marker(key) + shown == c
    ensures !(Marker(key) <= c) ==> shown == c
  {
    if Marker(key) <= c then c[|key| + 1..] else c
  }

  /** The labels of one dropdown, one per member column, in member order. */
  function OptionLabels(key: string, cols: seq<string>): (labels: seq<string>)
    ensures |labels| == |cols|
    ensures forall q :: 0 <= q < |cols| ==> labels[q] == StrippedLabel(key, cols[q])
  {
    seq(|cols|, q requires 0 <= q < |cols| => StrippedLabel(key, cols[q]))
  }

  /** Two different members of one group never share a label, so each choice can be told apart. */
  lemma StrippedLabelsDistinct(key: string, c1: string, c2: string)
    requires InGroup(c1, key) && InGroup(c2, key) && c1 != c2
    ensures StrippedLabel(key, c1) != StrippedLabel(key, c2)
  {
  }

  /** The labels of a group's members, which are distinct names, are themselves distinct. */
  lemma OptionLabelsDistinct(names: seq<string>, key: string)
    requires Distinct(names)
    ensures Distinct(OptionLabels(key, MembersOf(names, key)))
  {
    var cols := MembersOf(names, key);
    FilterDistinct(names, InGroupTest(key));
    forall a, b | 0 <= a < b < |cols|
      ensures StrippedLabel(key, cols[a]) != StrippedLabel(key, cols[b])
    {
      assert cols[a] in cols && cols[b] in cols;
      StrippedLabelsDistinct(key, cols[a], cols[b]);
    }
  }

  /**
    The page's label agrees with the intended one whenever the marker does not
    occur again after the leading one.
   */
  lemma OptionLabelAgrees(key: string, c: string)
    requires Marker(key) <= c && !Contains(c[|key| + 1..], Marker(key))
    ensures OptionLabel(key, c) == StrippedLabel(key, c)
  {
    var m := Marker(key);
    assert c[..|m|] == m;
    ReplaceAllAbsent(c[|m|..], m, "");
  }

  /**
    Two columns of the group `tipe` whose labels, as the page computes them,
    are both `a`: `tipe_tipe_a` loses its second `tipe_` as well.
   */
  lemma OptionLabelsCollide()
    ensures InGroup("tipe_a", "tipe") && InGroup("tipe_tipe_a", "tipe")
    ensures OptionLabel("tipe", "tipe_a") == OptionLabel("tipe", "tipe_tipe_a") == "a"
    ensures StrippedLabel("tipe", "tipe_tipe_a") == "tipe_a"
  {
    InTipeGroup("tipe_a");
    InTipeGroup("tipe_tipe_a");
    ShortLabel();
    LongLabel();
    LongStripped();
  }

  /** The intended label of `tipe_tipe_a` keeps its second `tipe_`. */
  lemma LongStripped()
    ensures StrippedLabel("tipe", "tipe_tipe_a") == "tipe_a"
  {
    var c := "tipe_tipe_a";
    assert c[..5] == Marker("tipe");
    assert c[5..] == "tipe_a";
  }

  /** Both example columns are one-hot members of the group `tipe`. */
  lemma InTipeGroup(name: string)
    requires name == "tipe_a" || name == "tipe_tipe_a"
    ensures InGroup(name, "tipe")
  {
    NoKeyword(name);
    assert name[4] == '_';
    assert FirstToken(name) == "tipe" by {
      assert name[..4] == "tipe";
    }
  }

  /** The page labels `tipe_a` as `a`. */
  lemma ShortLabel()
    ensures OptionLabel("tipe", "tipe_a") == "a"
  {
    var c := "tipe_a";
    assert c[..5] == Marker("tipe");
    assert c[5..] == "a";
  }

  /** The page labels `tipe_tipe_a` as `a` too, deleting both markers. */
  lemma LongLabel()
    ensures OptionLabel("tipe", "tipe_tipe_a") == "a"
  {
    var c := "tipe_tipe_a";
    var m := Marker("tipe");
    var d := c[5..];
    var e := d[5..];
    assert c[..5] == m && d[..5] == m && e == "a";
    assert ReplaceAll(e, m, "") == "a";
    assert ReplaceAll(d, m, "") == "a";
  }

  /** Names built from the letters `t i p e a _` contain none of the numeric keywords. */
  lemma NoKeyword(name: string)
    requires forall k :: 0 <= k < |name| ==> name[k] in "tipea_"
    ensures !HasNumericKeyword(name)
  {
    var alphabet := "tipea_";
    assert Lower(name) == name;
    var firstForeign := [0, 0, 2, 2, 0, 0, 0, 0, 0, 0, 0, 2];
    forall j | 0 <= j < |NUMERIC_KEYWORDS|
      ensures Foreign(alphabet, NUMERIC_KEYWORDS[j])
    {
      assert NUMERIC_KEYWORDS[j][firstForeign[j]] !in alphabet;
    }
    NoneOccur(name, alphabet, NUMERIC_KEYWORDS);
  }

  /** Some letter of `word` lies outside `alphabet`. */
  predicate Foreign(alphabet: string, word: string)
  {
    exists k :: 0 <= k < |word| && word[k] !in alphabet
  }

  /** A text written in `alphabet` contains no word that needs a letter outside it. */
  lemma {:induction false} NoneOccur(s: string, alphabet: string, words: seq<string>)
    requires forall k :: 0 <= k < |s| ==> s[k] in alphabet
    requires forall j :: 0 <= j < |words| ==> Foreign(alphabet, words[j])
    ensures !ContainsAny(s, words)
    decreases |words|
  {
    if words != [] {
      var w := words[0];
      assert Foreign(alphabet, w);
      var k :| 0 <= k < |w| && w[k] !in alphabet;
      forall i | 0 <= i <= |s| - |w|
        ensures !OccursAt(s, w, i)
      {
        assert s[i + k] in alphabet;
        assert i + |w| <= |s| ==> s[i..i + |w|][k] == s[i + k];
      }
      NoneOccur(s, alphabet, words[1..]);
    }
  }
}
