/** Properties of dice-term evaluation: the shape of the filled dice, the
    exact number of dice a keep or drop selection marks, the order between
    kept and dropped dice, and the signed total of the kept dice. */
module DiceRollerFacts {
  import opened Wrappers
  import opened Sorting
  import opened DiceExpression
  import opened DiceRoller

  /** Every die sits at the position its index names. */
  predicate IndexedByPosition(dice: seq<Die>)
  {
    forall i :: 0 <= i < |dice| ==> dice[i].index == i
  }

  function KeptIndices(dice: seq<Die>): set<nat>
  {
    set i: nat | i < |dice| && dice[i].kept
  }

  function DroppedIndices(dice: seq<Die>): set<nat>
  {
    set i: nat | i < |dice| && dice[i].dropped
  }

  /** No kept die shows less than a dropped one. */
  predicate NoKeptBelowDropped(dice: seq<Die>)
  {
    forall i, j :: 0 <= i < |dice| && 0 <= j < |dice| && dice[i].kept && dice[j].dropped ==>
      dice[i].value >= dice[j].value
  }

  /** No kept die shows more than a dropped one. */
  predicate NoKeptAboveDropped(dice: seq<Die>)
  {
    forall i, j :: 0 <= i < |dice| && 0 <= j < |dice| && dice[i].kept && dice[j].dropped ==>
      dice[i].value <= dice[j].value
  }

  // ---------------------------------------------------------------------
  // Shape

  /** Marking changes only the kept and dropped flags, and leaves them
      complementary. */
  lemma MarkedShape(dice: seq<Die>, indices: set<nat>, indicesAreKept: bool)
    ensures |Marked(dice, indices, indicesAreKept)| == |dice|
    ensures forall i :: 0 <= i < |dice| ==>
      var m := Marked(dice, indices, indicesAreKept)[i];
      m.index == dice[i].index && m.value == dice[i].value && m.kept == !m.dropped &&
      (m.kept <==> (dice[i].index in indices) == indicesAreKept)
  {
  }

  /** `evaluateDiceTerm` rolls exactly `count` dice numbered 0..count-1,
      filling missing values with the last supplied one (or `sides`); every
      die is either kept or dropped, and without a selection all are kept. */
  lemma {:induction false} EvaluatedDiceShape(term: DiceTerm, values: seq<int>)
    ensures var r := EvaluatedDice(term, values);
      |r.dice| == term.count &&
      IndexedByPosition(r.dice) &&
      (forall i :: 0 <= i < term.count ==>
        r.dice[i].value == FillValue(values, i, term.sides) && r.dice[i].kept == !r.dice[i].dropped) &&
      (term.selection.None? ==> forall i :: 0 <= i < term.count ==> r.dice[i].kept)
  {
    var base := Filled(values, term.count, term.sides);
    match term.selection
    case None =>
    case Some(s) =>
      var target := Min(s.count, |base|);
      if target > 0 {
        MarkedShape(base, IndexSet(Indices(Chosen(s.mode, base, target))), Keeps(s.mode));
      }
  }

  // ---------------------------------------------------------------------
  // The sort behind the selection is a permutation of distinct dice

  /** The order the selection takes its prefix from. */
  function Ordered(mode: SelectionMode, dice: seq<Die>): seq<Die>
  {
    if TakesHighest(mode) then Descending(dice) else Ascending(dice)
  }

  lemma ChosenIsPrefix(mode: SelectionMode, dice: seq<Die>, target: nat)
    requires target <= |dice|
    ensures |Ordered(mode, dice)| == |dice|
    ensures Chosen(mode, dice, target) == Ordered(mode, dice)[..target]
    ensures multiset(Ordered(mode, dice)) == multiset(dice)
  {
  }

  lemma HigherIsStrict()
    ensures StrictOrder(Higher)
  {
  }

  lemma LowerIsStrict()
    ensures StrictOrder(Lower)
  {
  }

  /** The order sorts by descending value for the highest modes and by
      ascending value for the lowest ones. */
  lemma OrderedSorted(mode: SelectionMode, dice: seq<Die>)
    ensures TakesHighest(mode) ==> SortedBy(Ordered(mode, dice), Higher)
    ensures !TakesHighest(mode) ==> SortedBy(Ordered(mode, dice), Lower)
  {
    HigherIsStrict();
    LowerIsStrict();
    if TakesHighest(mode) {
      InsertionSortSorted(Ascending(dice), Higher);
    } else {
      InsertionSortSorted(dice, Lower);
    }
  }

  /** Dice indexed by position occur at most once each. */
  lemma {:induction false} IndexedOnce(dice: seq<Die>, x: Die)
    requires IndexedByPosition(dice)
    ensures multiset(dice)[x] <= 1
  {
    if dice != [] {
      var init := dice[..|dice| - 1];
      assert dice == init + [dice[|dice| - 1]];
      IndexedOnce(init, x);
      if x == dice[|dice| - 1] {
        assert x !in init by {
          forall k | 0 <= k < |init| ensures init[k] != x {
            assert init[k].index == k < |dice| - 1 == x.index;
          }
        }
      }
    }
  }

  /** A value at two positions of a sequence occurs twice in it. */
  lemma Twice(s: seq<Die>, i: nat, j: nat)
    requires i < j < |s| && s[i] == s[j]
    ensures multiset(s)[s[i]] >= 2
  {
    assert s == s[..j] + s[j..];
    assert s[i] == s[..j][i];
    assert s[j] == s[j..][0];
  }

  /** A permutation of dice indexed by position never repeats an index, and
      every element of it is the die at the position its index names. */
  lemma PermutationDistinct(s: seq<Die>, dice: seq<Die>)
    requires IndexedByPosition(dice)
    requires multiset(s) == multiset(dice)
    ensures forall p :: 0 <= p < |s| ==> s[p].index < |dice| && dice[s[p].index] == s[p]
    ensures forall p, q :: 0 <= p < q < |s| ==> s[p].index != s[q].index
  {
    forall p | 0 <= p < |s| ensures s[p].index < |dice| && dice[s[p].index] == s[p] {
      assert s[p] in multiset(dice);
      var a :| 0 <= a < |dice| && dice[a] == s[p];
    }
    forall p, q | 0 <= p < q < |s| ensures s[p].index != s[q].index {
      if s[p].index == s[q].index {
        Twice(s, p, q);
        IndexedOnce(dice, s[p]);
      }
    }
  }

  /** An index list without repeats has as many members as positions. */
  lemma {:induction false} IndexSetSize(ix: seq<nat>)
    requires forall p, q :: 0 <= p < q < |ix| ==> ix[p] != ix[q]
    ensures |IndexSet(ix)| == |ix|
  {
    if ix != [] {
      var init := ix[..|ix| - 1];
      IndexSetSize(init);
      assert IndexSet(ix) == IndexSet(init) + {ix[|ix| - 1]};
      assert ix[|ix| - 1] !in IndexSet(init);
    }
  }

  /** The chosen index set: `target` distinct positions of the dice, and a
      position is chosen exactly when its die sits in the prefix. */
  lemma ChosenSet(mode: SelectionMode, dice: seq<Die>, target: nat)
    requires IndexedByPosition(dice)
    requires target <= |dice|
    ensures var chosen := IndexSet(Indices(Chosen(mode, dice, target)));
      |chosen| == target &&
      (forall k :: k in chosen ==> k < |dice|) &&
      (forall i :: 0 <= i < |dice| ==>
        (i in chosen <==> exists p :: 0 <= p < target && Ordered(mode, dice)[p] == dice[i]))
  {
    ChosenIsPrefix(mode, dice, target);
    PrefixIndexSet(Ordered(mode, dice), dice, target);
  }

  /** The index set of the first `target` dice of a reordering of the
      dice. */
  lemma PrefixIndexSet(s: seq<Die>, dice: seq<Die>, target: nat)
    requires IndexedByPosition(dice) && multiset(s) == multiset(dice) && target <= |s|
    ensures var chosen := IndexSet(Indices(s[..target]));
      |chosen| == target &&
      (forall k :: k in chosen ==> k < |dice|) &&
      (forall i :: 0 <= i < |dice| ==> (i in chosen <==> exists p :: 0 <= p < target && s[p] == dice[i]))
  {
    PermutationDistinct(s, dice);
    var ix := Indices(s[..target]);
    IndexSetSize(ix);
    forall i | 0 <= i < |dice|
      ensures i in IndexSet(ix) <==> exists p :: 0 <= p < target && s[p] == dice[i]
    {
      if i in IndexSet(ix) {
        var p :| 0 <= p < |ix| && ix[p] == i;
        assert s[p] == dice[i];
      }
      if exists p :: 0 <= p < target && s[p] == dice[i] {
        var p :| 0 <= p < target && s[p] == dice[i];
        assert ix[p] == i;
      }
    }
  }

  // ---------------------------------------------------------------------
  // How many dice a selection keeps or drops

  lemma MarkedFlags(dice: seq<Die>, chosen: set<nat>)
    requires IndexedByPosition(dice)
    requires forall k :: k in chosen ==> k < |dice|
    ensures KeptIndices(Marked(dice, chosen, true)) == chosen
    ensures DroppedIndices(Marked(dice, chosen, false)) == chosen
  {
  }

  /** With a positive count k over n dice, keep-highest and keep-lowest keep
      exactly min(k, n) dice, and drop-highest and drop-lowest drop exactly
      min(k, n). */
  lemma SelectionCounts(s: Selection, values: seq<int>, count: nat, sides: nat)
    requires s.count > 0
    ensures var dice := Selected(Some(s), Filled(values, count, sides));
      (Keeps(s.mode) ==> |KeptIndices(dice)| == Min(s.count, count)) &&
      (!Keeps(s.mode) ==> |DroppedIndices(dice)| == Min(s.count, count))
  {
    var base := Filled(values, count, sides);
    var target := Min(s.count, count);
    if target > 0 {
      ChosenSet(s.mode, base, target);
      MarkedFlags(base, IndexSet(Indices(Chosen(s.mode, base, target))));
    } else {
      assert KeptIndices(base) == {};
      assert DroppedIndices(base) == {};
    }
  }

  // ---------------------------------------------------------------------
  // Kept dice against dropped dice

  /** Every chosen die shows at least (highest modes) or at most (lowest
      modes) what every die left out of the choice shows. */
  lemma ChosenAgainstRest(mode: SelectionMode, dice: seq<Die>, target: nat, i: nat, j: nat)
    requires IndexedByPosition(dice)
    requires target <= |dice|
    requires i < |dice| && j < |dice|
    requires i in IndexSet(Indices(Chosen(mode, dice, target)))
    requires j !in IndexSet(Indices(Chosen(mode, dice, target)))
    ensures TakesHighest(mode) ==> dice[i].value >= dice[j].value
    ensures !TakesHighest(mode) ==> dice[i].value <= dice[j].value
  {
    ChosenSet(mode, dice, target);
    ChosenIsPrefix(mode, dice, target);
    OrderedSorted(mode, dice);
    var s := Ordered(mode, dice);
    var p :| 0 <= p < target && s[p] == dice[i];
    assert dice[j] in multiset(s);
    var q :| 0 <= q < |s| && s[q] == dice[j];
    assert q >= target;
  }

  /** keep-highest and drop-lowest never keep a die below a dropped die;
      keep-lowest and drop-highest never keep a die above a dropped die. */
  lemma SelectionOrder(s: Selection, values: seq<int>, count: nat, sides: nat)
    ensures var dice := Selected(Some(s), Filled(values, count, sides));
      ((s.mode == KeepHighest || s.mode == DropLowest) ==> NoKeptBelowDropped(dice)) &&
      ((s.mode == KeepLowest || s.mode == DropHighest) ==> NoKeptAboveDropped(dice))
  {
    var base := Filled(values, count, sides);
    var target := Min(s.count, count);
    if target > 0 {
      var chosen := IndexSet(Indices(Chosen(s.mode, base, target)));
      var dice := Marked(base, chosen, Keeps(s.mode));
      forall i, j | 0 <= i < |dice| && 0 <= j < |dice| && dice[i].kept && dice[j].dropped
        ensures (s.mode == KeepHighest || s.mode == DropLowest) ==> dice[i].value >= dice[j].value
        ensures (s.mode == KeepLowest || s.mode == DropHighest) ==> dice[i].value <= dice[j].value
      {
        if Keeps(s.mode) {
          ChosenAgainstRest(s.mode, base, target, i, j);
        } else {
          ChosenAgainstRest(s.mode, base, target, j, i);
        }
      }
    }
  }

  // ---------------------------------------------------------------------
  // Totals

  /** The values of the dice not dropped, added from the first die on. */
  function SumNotDropped(dice: seq<Die>): int
  {
    if dice == [] then 0
    else (if dice[0].dropped then 0 else dice[0].value) + SumNotDropped(dice[1..])
  }

  /** The term total is the sum of the values of the dice not dropped,
      negated for a `-` term. */
  lemma {:induction false} KeptTotalIsSignedSum(dice: seq<Die>, op: Operator)
    ensures KeptTotal(dice, op) == if op == Plus then SumNotDropped(dice) else -SumNotDropped(dice)
  {
    if dice != [] {
      var init := dice[..|dice| - 1];
      var last := dice[|dice| - 1];
      KeptTotalIsSignedSum(init, op);
      SumSnoc(init, last);
      assert init + [last] == dice;
    }
  }

  lemma {:induction false} SumSnoc(dice: seq<Die>, last: Die)
    ensures SumNotDropped(dice + [last]) == SumNotDropped(dice) + (if last.dropped then 0 else last.value)
  {
    if dice != [] {
      assert (dice + [last])[1..] == dice[1..] + [last];
      SumSnoc(dice[1..], last);
    }
  }

  /** A term without a selection totals all of its filled values. */
  lemma UnselectedTotal(term: DiceTerm, values: seq<int>)
    requires term.selection.None?
    ensures EvaluatedDice(term, values).total ==
      if term.op == Plus then SumNotDropped(Filled(values, term.count, term.sides))
      else -SumNotDropped(Filled(values, term.count, term.sides))
  {
    KeptTotalIsSignedSum(Filled(values, term.count, term.sides), term.op);
  }
}
