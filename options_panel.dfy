/** The answer panel: the candidate answers of a case in random order, one
    button per answer, labelled A, B, C, ... by position. */
module OptionsPanel {
  import opened Types
  import opened Constants

  /** The candidate answers before reordering: the distractors, then the right one. */
  function AllOptions(c: TcmCase): (all: seq<string>)
    ensures |all| == |c.wrongOptions| + 1 && c.correctDiagnosis in all
    ensures multiset(all) == multiset(c.wrongOptions) + multiset{c.correctDiagnosis}
  {
    c.wrongOptions + [c.correctDiagnosis]
  }

  /** Reorder `a` in place into some permutation of itself. Any permutation
      may come out: each step swaps the last unplaced slot with a slot chosen
      freely among the unplaced ones. */
  method Shuffle(a: array<string>)
    modifies a
    ensures multiset(a[..]) == old(multiset(a[..]))
  {
    var i := a.Length;
    while i > 1
      invariant 0 <= i <= a.Length
      invariant multiset(a[..]) == old(multiset(a[..]))
    {
      var j :| 0 <= j < i;
      a[i - 1], a[j] := a[j], a[i - 1];
      i := i - 1;
    }
  }

  /** The options shown for a case: every candidate answer exactly as often as
      in the distractors followed by the right one, in some order. */
  method ShuffledOptions(c: TcmCase) returns (options: seq<string>)
    ensures multiset(options) == multiset(AllOptions(c))
    ensures |options| == |c.wrongOptions| + 1
    ensures c.correctDiagnosis in options
  {
    var all := AllOptions(c);
    var a := new string[|all|](i requires 0 <= i < |all| => all[i]);
    assert a[..] == all;
    Shuffle(a);
    options := a[..];
    assert c.correctDiagnosis in multiset(all);
    assert c.correctDiagnosis in multiset(options);
  }

  /** The label shown on the button at position `idx`: the UTF-16 code unit
      `65 + idx`, that is 'A' for the first option and on in alphabetical order. */
  function OptionLabel(idx: nat): (unit: nat)
    ensures unit < 0x1_0000
    ensures idx < 0x1_0000 - 65 ==> unit == 'A' as int + idx
  {
    (65 + idx) % 0x1_0000
  }

  /** One answer button: its label, the answer it submits when clicked, and
      whether it is disabled. */
  datatype OptionButton = OptionButton(letter: nat, option: string, disabled: bool)

  /** The buttons of the panel, one per option, in the order of `options`. */
  function Buttons(options: seq<string>, disabled: bool): (buttons: seq<OptionButton>)
    ensures |buttons| == |options|
    ensures forall i :: 0 <= i < |buttons| ==>
      buttons[i].option == options[i] && buttons[i].disabled == disabled && buttons[i].letter == OptionLabel(i)
  {
    seq(|options|, i requires 0 <= i < |options| => OptionButton(OptionLabel(i), options[i], disabled))
  }

  /** The answer passed to the selection handler when the button at position
      `i` of the panel is clicked: exactly the option shown there. */
  function OnClick(options: seq<string>, disabled: bool, i: nat): (selected: string)
    requires i < |options|
    ensures selected == options[i]
  {
    Buttons(options, disabled)[i].option
  }

  /** Labels follow the positions: strictly increasing, hence distinct, for
      any panel with fewer than 65471 options. */
  lemma LabelsInOrder(options: seq<string>, disabled: bool, i: nat, j: nat)
    requires i < j < |options| < 0x1_0000 - 65
    ensures Buttons(options, disabled)[i].letter < Buttons(options, disabled)[j].letter
  {
  }

  /** The four buttons of a standard case read A, B, C, D. */
  lemma FourLabels(options: seq<string>, disabled: bool)
    requires |options| == 4
    ensures |Buttons(options, disabled)| == 4
    ensures Buttons(options, disabled)[0].letter == 'A' as int
    ensures Buttons(options, disabled)[1].letter == 'B' as int
    ensures Buttons(options, disabled)[2].letter == 'C' as int
    ensures Buttons(options, disabled)[3].letter == 'D' as int
  {
  }

  /** A sequence has no repeated element exactly when no element occurs more
      than once in its multiset. */
  lemma {:induction false} DistinctIffSingleCounts<T>(s: seq<T>)
    ensures Distinct(s) <==> forall x :: multiset(s)[x] <= 1
    decreases |s|
  {
    if s != [] {
      var t := s[1..];
      assert s == [s[0]] + t;
      DistinctIffSingleCounts(t);
      if Distinct(s) {
        assert Distinct(t) by {
          forall i, j | 0 <= i < j < |t| ensures t[i] != t[j] {
            assert t[i] == s[i + 1] && t[j] == s[j + 1];
          }
        }
        assert s[0] !in t;
        forall x ensures multiset(s)[x] <= 1 {
          assert multiset(s) == multiset([s[0]]) + multiset(t);
        }
      } else {
        var i, j :| 0 <= i < j < |s| && s[i] == s[j];
        var x := s[i];
        if i == 0 {
          assert t[j - 1] == x;
          assert x in multiset(t);
          assert multiset(s) == multiset([s[0]]) + multiset(t);
          assert multiset(s)[x] >= 2;
        } else {
          assert t[i - 1] == x && t[j - 1] == x;
          assert !Distinct(t);
          var y :| multiset(t)[y] > 1;
          assert multiset(s) == multiset([s[0]]) + multiset(t);
          assert multiset(s)[y] > 1;
        }
      }
    }
  }

  /** Reordering never introduces a repeated element. */
  lemma PermutationKeepsDistinct<T>(p: seq<T>, q: seq<T>)
    requires multiset(p) == multiset(q) && Distinct(q)
    ensures Distinct(p)
  {
    DistinctIffSingleCounts(q);
    DistinctIffSingleCounts(p);
  }

  /** For a well-formed case the panel shows four different answers and the
      right one exactly once, whatever the order. */
  lemma WellFormedOptionsDistinct(c: TcmCase, options: seq<string>)
    requires WellFormedCase(c)
    requires multiset(options) == multiset(AllOptions(c))
    ensures |options| == 4 && Distinct(options)
    ensures multiset(options)[c.correctDiagnosis] == 1
  {
    var all := AllOptions(c);
    assert Distinct(all) by {
      forall i, j | 0 <= i < j < |all| ensures all[i] != all[j] {
        if j == 3 {
          assert all[i] == c.wrongOptions[i];
        } else {
          assert all[i] == c.wrongOptions[i] && all[j] == c.wrongOptions[j];
        }
      }
    }
    assert |options| == |multiset(options)| == |multiset(all)| == 4;
    PermutationKeepsDistinct(options, all);
    DistinctIffSingleCounts(all);
    assert all[3] == c.correctDiagnosis;
    assert c.correctDiagnosis in multiset(all);
  }

  /** The panel built from the fallback case shows four different answers and
      the right one exactly once. */
  lemma FallbackOptionsDistinct(options: seq<string>)
    requires multiset(options) == multiset(AllOptions(MOCK_FALLBACK_CASE))
    ensures |options| == 4 && Distinct(options)
    ensures multiset(options)[MOCK_FALLBACK_CASE.correctDiagnosis] == 1
  {
    FallbackWellFormed();
    WellFormedOptionsDistinct(MOCK_FALLBACK_CASE, options);
  }
}
