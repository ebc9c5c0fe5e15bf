/** How the 3D dice box's answer is turned into the numbers the app uses.
    The box is asked to roll some dice and resolves to a list of roll
    objects; `normalizeRolls` digs that list out of the reply, and
    `allocateValuesBySpecs` hands each requested die the next value the box
    reported for its side count, first in first out, drawing a fallback
    value when the box reported too few. The reply and the fallback draws
    (`Math.floor(Math.random() * sides) + 1` for spec `k`) are parameters;
    the box itself, its canvas, the fade timers and the sounds are outside
    this model. */
module DiceBoxManager {
  import opened Wrappers
  import opened Text
  import DiceEngine

  // ---------------------------------------------------------------------
  // coerceSides

  /** A `sides` field: a number (perhaps NaN or infinite), a string, or
      anything else (`undefined`). */
  datatype Sides = NumberSides(num: DiceEngine.Num) | TextSides(text: string) | NoSides

  /** Index of the first decimal digit of `s`, or `|s|` when it has none. */
  function FirstDigitAt(s: string): (i: nat)
    ensures i <= |s|
    ensures forall j :: 0 <= j < i ==> !IsDigit(s[j])
    ensures i < |s| ==> IsDigit(s[i])
  {
    if s == [] || IsDigit(s[0]) then 0 else 1 + FirstDigitAt(s[1..])
  }

  /** The text `/\d+/` matches in `s`: its first run of digits. */
  function FirstDigitRun(s: string): (d: Option<string>)
    ensures d.None? <==> forall j :: 0 <= j < |s| ==> !IsDigit(s[j])
    ensures d.Some? ==> d.value != [] && AllDigits(d.value)
  {
    var i := FirstDigitAt(s);
    if i == |s| then None
    else
      var t := s[i..];
      assert t[0] == s[i];
      Some(LeadingDigits(t))
  }

  /** `coerceSides`: a finite number as it is, a string by the value of its
      first run of digits, anything else `undefined` (`None`). */
  function CoerceSides(input: Sides): (r: Option<int>)
    ensures input.NumberSides? ==> r == (if input.num.Finite? then Some(input.num.n) else None)
    ensures input.TextSides? ==> (r.None? <==> forall j :: 0 <= j < |input.text| ==> !IsDigit(input.text[j]))
    ensures input.TextSides? && r.Some? ==> r.value >= 0
    ensures input.NoSides? ==> r.None?
  {
    match input
    case NumberSides(num) => if num.Finite? then Some(num.n) else None
    case TextSides(text) =>
      (match FirstDigitRun(text)
       case None => None
       case Some(d) => Some(DigitsValue(d) as int))
    case NoSides => None
  }

  lemma FirstDigitAfter(prefix: string, t: string)
    requires forall j :: 0 <= j < |prefix| ==> !IsDigit(prefix[j])
    requires t != [] && IsDigit(t[0])
    ensures FirstDigitRun(prefix + t) == Some(LeadingDigits(t))
  {
    var s := prefix + t;
    assert s[|prefix|] == t[0];
    assert s[|prefix|..] == t;
  }

  /** A side count written in a die label ("d20", "20 sides") is read back,
      whatever digit-free text comes before it. */
  lemma CoerceSidesReadsBack(prefix: string, n: nat, rest: string)
    requires forall j :: 0 <= j < |prefix| ==> !IsDigit(prefix[j])
    requires rest == [] || !IsDigit(rest[0])
    ensures CoerceSides(TextSides(prefix + NatToString(n) + rest)) == Some(n)
  {
    var numeral := NatToString(n);
    var t := numeral + rest;
    assert prefix + numeral + rest == prefix + t;
    assert t[0] == numeral[0];
    FirstDigitAfter(prefix, t);
    LeadingDigitsOfNumeral(numeral, rest);
    DigitsValueOfNatToString(n);
  }

  // ---------------------------------------------------------------------
  // normalizeRolls

  /** One roll object of the reply; a missing value is `None`. */
  datatype RollObject = RollObject(value: Option<DiceEngine.Num>, sides: Sides)

  /** What `box.roll` resolves to, as far as `normalizeRolls` looks at it:
      an array of roll objects; some other object, with its `rolls` field
      and the `rolls` field of its `0` entry where those are arrays; or
      anything else (`null`, `undefined`, a primitive). */
  datatype Reply =
    | RollArray(items: seq<RollObject>)
    | RollRecord(rolls: Option<seq<RollObject>>, firstRolls: Option<seq<RollObject>>)
    | NoReply

  /** `normalizeRolls`: an array is the list itself; an object gives its
      own `rolls` list, else the one under its `0` entry; anything else
      gives no rolls. */
  function NormalizeRolls(raw: Reply): (rolls: seq<RollObject>)
    ensures raw.RollArray? ==> rolls == raw.items
    ensures raw.RollRecord? ==> rolls == (if raw.rolls.Some? then raw.rolls.value else raw.firstRolls.GetOr([]))
    ensures raw.NoReply? ==> rolls == []
  {
    match raw
    case RollArray(items) => items
    case RollRecord(rolls, firstRolls) =>
      if rolls.Some? then rolls.value else firstRolls.GetOr([])
    case NoReply => []
  }

  // ---------------------------------------------------------------------
  // allocateValuesBySpecs, specified

  /** `sides && Number.isFinite(val)`: the roll joins the pool of its side
      count, which must coerce to a non-zero number. */
  predicate Pooled(roll: RollObject, sides: int)
  {
    sides != 0 && CoerceSides(roll.sides) == Some(sides) && roll.value.Some? && roll.value.value.Finite?
  }

  /** The pool of `sides`-sided values the box reported, in reply order. */
  function Reported(rolls: seq<RollObject>, sides: int): (pool: seq<int>)
    ensures |pool| <= |rolls|
  {
    if rolls == [] then []
    else
      var last := rolls[|rolls| - 1];
      Reported(rolls[..|rolls| - 1], sides) + (if Pooled(last, sides) then [last.value.value.n] else [])
  }

  /** How many of `specs` ask for `sides`-sided dice. */
  function CountOf(specs: seq<int>, sides: int): (n: nat)
    ensures n <= |specs|
  {
    if specs == [] then 0
    else CountOf(specs[..|specs| - 1], sides) + (if specs[|specs| - 1] == sides then 1 else 0)
  }

  /** Where in its pool spec `k` takes its value: after the values taken by
      the earlier specs with the same side count. */
  function Slot(specs: seq<int>, k: nat): nat
    requires k < |specs|
  {
    CountOf(specs[..k], specs[k])
  }

  /** The value spec `k` receives: the next reported value for its side
      count, or, once that pool is used up, the fallback draw clamped to
      `Math.max(1, Math.min(sides, draw))`. */
  function Assigned(rolls: seq<RollObject>, specs: seq<int>, draw: nat -> int, k: nat): int
    requires k < |specs|
  {
    var pool := Reported(rolls, specs[k]);
    var slot := Slot(specs, k);
    if slot < |pool| then pool[slot] else DiceEngine.Clamp(specs[k], draw(k))
  }

  /** The values `allocateValuesBySpecs` returns, one per spec. */
  function Allocation(rolls: seq<RollObject>, specs: seq<int>, draw: nat -> int): (values: seq<int>)
    ensures |values| == |specs|
  {
    seq(|specs|, k requires 0 <= k < |specs| => Assigned(rolls, specs, draw, k))
  }

  /** `pools.get(sides) ?? []`. */
  function Bucket(pools: map<int, seq<int>>, sides: int): seq<int>
  {
    if sides in pools then pools[sides] else []
  }

  /** What is left of a pool once `n` specs have shifted from it. */
  function Drop(pool: seq<int>, n: nat): seq<int>
  {
    if n <= |pool| then pool[n..] else []
  }

  lemma ReportedStep(rolls: seq<RollObject>, i: nat, sides: int)
    requires i < |rolls|
    ensures Reported(rolls[..i + 1], sides) ==
      Reported(rolls[..i], sides) + (if Pooled(rolls[i], sides) then [rolls[i].value.value.n] else [])
  {
    assert rolls[..i + 1][..i] == rolls[..i];
  }

  lemma CountStep(specs: seq<int>, k: nat, sides: int)
    requires k < |specs|
    ensures CountOf(specs[..k + 1], sides) == CountOf(specs[..k], sides) + (if specs[k] == sides then 1 else 0)
  {
    assert specs[..k + 1][..k] == specs[..k];
  }

  /** The front of a spec's bucket, when there is one, is the value the
      spec is assigned. */
  lemma AssignedFromBucket(rolls: seq<RollObject>, specs: seq<int>, draw: nat -> int, k: nat, bucket: seq<int>)
    requires k < |specs|
    requires bucket == Drop(Reported(rolls, specs[k]), CountOf(specs[..k], specs[k]))
    ensures Assigned(rolls, specs, draw, k) == if bucket != [] then bucket[0] else DiceEngine.Clamp(specs[k], draw(k))
  {
  }

  lemma AllocationExtends(rolls: seq<RollObject>, specs: seq<int>, draw: nat -> int, k: nat)
    requires k < |specs|
    ensures Allocation(rolls, specs, draw)[..k + 1] == Allocation(rolls, specs, draw)[..k] + [Assigned(rolls, specs, draw, k)]
  {
  }

  /** Shifting the front of spec `k`'s bucket keeps every bucket equal to
      its pool less the values the specs so far have taken. */
  lemma ShiftStep(rolls: seq<RollObject>, specs: seq<int>, k: nat, before: map<int, seq<int>>, after: map<int, seq<int>>)
    requires k < |specs|
    requires forall s :: Bucket(before, s) == Drop(Reported(rolls, s), CountOf(specs[..k], s))
    requires after == if Bucket(before, specs[k]) != [] then before[specs[k] := Bucket(before, specs[k])[1..]] else before
    ensures forall s :: Bucket(after, s) == Drop(Reported(rolls, s), CountOf(specs[..k + 1], s))
  {
    forall s ensures Bucket(after, s) == Drop(Reported(rolls, s), CountOf(specs[..k + 1], s)) {
      CountStep(specs, k, s);
    }
  }

  // ---------------------------------------------------------------------
  // allocateValuesBySpecs

  /** The `rolls.forEach` of `allocateValuesBySpecs`: every usable roll is
      pushed onto the bucket of its side count, so each bucket ends up
      holding that side count's reported values in reply order. */
  method FillPools(rolls: seq<RollObject>) returns (pools: map<int, seq<int>>)
    ensures forall s :: Bucket(pools, s) == Reported(rolls, s)
  {
    pools := map[];
    for i := 0 to |rolls|
      invariant forall s :: Bucket(pools, s) == Reported(rolls[..i], s)
    {
      var roll := rolls[i];
      var sides := CoerceSides(roll.sides);
      if sides.Some? && sides.value != 0 && roll.value.Some? && roll.value.value.Finite? {
        var bucket := Bucket(pools, sides.value);
        pools := pools[sides.value := bucket + [roll.value.value.n]];
      }
      forall s ensures Bucket(pools, s) == Reported(rolls[..i + 1], s) {
        ReportedStep(rolls, i, s);
      }
    }
    assert rolls[..|rolls|] == rolls;
  }

  /** `allocateValuesBySpecs`: after the pools are filled, each spec
      shifts the front value of its bucket, or draws a fallback when the
      bucket is empty. */
  method AllocateValuesBySpecs(rolls: seq<RollObject>, specs: seq<int>, draw: nat -> int) returns (values: seq<int>)
    ensures values == Allocation(rolls, specs, draw)
  {
    var pools := FillPools(rolls);
    values := [];
    assert |Allocation(rolls, specs, draw)| == |specs|;
    for k := 0 to |specs|
      invariant values == Allocation(rolls, specs, draw)[..k]
      invariant forall s :: Bucket(pools, s) == Drop(Reported(rolls, s), CountOf(specs[..k], s))
    {
      var bucket := Bucket(pools, specs[k]);
      ghost var old_pools := pools;
      AssignedFromBucket(rolls, specs, draw, k, bucket);
      if bucket != [] {
        values := values + [bucket[0]];
        pools := pools[specs[k] := bucket[1..]];
      } else {
        values := values + [DiceEngine.Clamp(specs[k], draw(k))];
      }
      ShiftStep(rolls, specs, k, old_pools, pools);
      AllocationExtends(rolls, specs, draw, k);
    }
  }

  // ---------------------------------------------------------------------
  // What the allocation promises

  /** Every value handed out is either a value the box reported for that
      side count or a fallback between 1 and the side count (1 when the
      side count is below 1). */
  lemma AllocatedFromPoolOrFallback(rolls: seq<RollObject>, specs: seq<int>, draw: nat -> int, k: nat)
    requires k < |specs|
    ensures var v := Allocation(rolls, specs, draw)[k];
      v in Reported(rolls, specs[k]) || (1 <= v && (specs[k] >= 1 ==> v <= specs[k]) && (specs[k] < 1 ==> v == 1))
  {
  }

  /** Nothing is pooled under 0 sides: a spec for 0-sided dice always
      falls back, and its fallback is 1. */
  lemma {:induction false} ReportedZero(rolls: seq<RollObject>)
    ensures Reported(rolls, 0) == []
    decreases |rolls|
  {
    if rolls != [] {
      ReportedZero(rolls[..|rolls| - 1]);
    }
  }

  lemma {:induction false} CountOfPrefixGrows(specs: seq<int>, a: nat, b: nat, sides: int)
    requires a <= b <= |specs|
    ensures CountOf(specs[..a], sides) <= CountOf(specs[..b], sides)
    decreases b - a
  {
    if a < b {
      CountStep(specs, b - 1, sides);
      CountOfPrefixGrows(specs, a, b - 1, sides);
    }
  }

  /** First in, first out: of two specs with the same side count, the
      earlier one takes the earlier pool position, so no reported value is
      handed out twice. */
  lemma SlotsIncrease(specs: seq<int>, j: nat, k: nat)
    requires j < k < |specs| && specs[j] == specs[k]
    ensures Slot(specs, j) < Slot(specs, k)
  {
    CountStep(specs, j, specs[j]);
    CountOfPrefixGrows(specs, j + 1, k, specs[j]);
  }

  /** No reported value is skipped: each of the first `CountOf(specs, s)`
      pool positions is taken by some spec for `s`-sided dice. */
  lemma {:induction false} SlotsCover(specs: seq<int>, sides: int, n: nat)
    requires n < CountOf(specs, sides)
    ensures exists k :: 0 <= k < |specs| && specs[k] == sides && Slot(specs, k) == n
    decreases |specs|
  {
    var init := specs[..|specs| - 1];
    if n < CountOf(init, sides) {
      SlotsCover(init, sides, n);
      var k :| 0 <= k < |init| && init[k] == sides && Slot(init, k) == n;
      assert init[..k] == specs[..k];
      assert specs[k] == sides && Slot(specs, k) == n;
    } else {
      var k := |specs| - 1;
      assert specs[..k] == init;
      assert specs[k] == sides && Slot(specs, k) == n;
    }
  }

  // ---------------------------------------------------------------------
  // rollDiceBoxValues

  lemma {:induction false} CountOfSame(sides: int, n: nat)
    ensures CountOf(seq(n, _ => sides), sides) == n
  {
    if n > 0 {
      assert seq(n, _ => sides)[..n - 1] == seq(n - 1, _ => sides);
      CountOfSame(sides, n - 1);
    }
  }

  /** `rollDiceBoxValues(count, sides)`: nothing for a non-positive count or
      side count; otherwise `count` values, the first ones the box reported
      for that side count in reply order, then clamped fallback draws. */
  method RollDiceBoxValues(count: int, sides: int, reply: Reply, draw: nat -> int) returns (values: seq<int>)
    ensures count <= 0 || sides <= 0 ==> values == []
    ensures count > 0 && sides > 0 ==> (|values| == count &&
      forall k :: 0 <= k < count ==>
        var pool := Reported(NormalizeRolls(reply), sides);
        values[k] == (if k < |pool| then pool[k] else DiceEngine.Clamp(sides, draw(k))) && 1 <= DiceEngine.Clamp(sides, draw(k)) <= sides)
  {
    if count <= 0 || sides <= 0 {
      return [];
    }
    var specs := seq(count, _ => sides);
    values := AllocateValuesBySpecs(NormalizeRolls(reply), specs, draw);
    forall k | 0 <= k < count ensures Slot(specs, k) == k {
      assert specs[..k] == seq(k, _ => sides);
      CountOfSame(sides, k);
    }
  }

  // ---------------------------------------------------------------------
  // rollDiceBoxComposite

  /** The `count` copies of `sides` a request adds to the specs (none for a
      count of 0 or less, since the `for` loop does not run). */
  function Copies(r: DiceEngine.Request): (specs: seq<int>)
    ensures |specs| == (if r.count <= 0 then 0 else r.count)
    ensures forall k :: 0 <= k < |specs| ==> specs[k] == r.sides
    decreases if r.count <= 0 then 0 else r.count
  {
    if r.count <= 0 then [] else Copies(DiceEngine.Request(r.count - 1, r.sides)) + [r.sides]
  }

  /** The specs `rollDiceBoxComposite` builds, request after request. */
  function Specs(requests: seq<DiceEngine.Request>): seq<int>
  {
    if requests == [] then [] else Specs(requests[..|requests| - 1]) + Copies(requests[|requests| - 1])
  }

  /** The slicing cursor after the given requests: the sum of their counts. */
  function Cursor(requests: seq<DiceEngine.Request>): int
  {
    if requests == [] then 0 else Cursor(requests[..|requests| - 1]) + requests[|requests| - 1].count
  }

  /** A slice index as `Array.prototype.slice` reads it: negative ones count
      from the end, and both ends are clamped to the array. */
  function SliceIndex(len: nat, i: int): (r: nat)
    ensures r <= len
    ensures 0 <= i <= len ==> r == i
  {
    if i < 0 then (if len + i < 0 then 0 else len + i) else if i > len then len else i
  }

  /** `xs.slice(start, end)`. */
  function JsSlice(xs: seq<int>, start: int, end: int): seq<int>
  {
    var a := SliceIndex(|xs|, start);
    var b := SliceIndex(|xs|, end);
    if b <= a then [] else xs[a..b]
  }

  /** One group per request: the slice between the cursor before it and the
      cursor after it. */
  function Groups(values: seq<int>, requests: seq<DiceEngine.Request>): (groups: seq<seq<int>>)
    ensures |groups| == |requests|
  {
    seq(|requests|, i requires 0 <= i < |requests| => JsSlice(values, Cursor(requests[..i]), Cursor(requests[..i + 1])))
  }

  /** The nested loop of `rollDiceBoxComposite` that lays out the specs:
      `count` copies of each request's side count, request after request. */
  method BuildSpecs(requests: seq<DiceEngine.Request>) returns (specs: seq<int>)
    ensures specs == Specs(requests)
  {
    specs := [];
    for i := 0 to |requests|
      invariant specs == Specs(requests[..i])
    {
      var req := requests[i];
      var j := 0;
      while j < req.count
        invariant 0 <= j <= (if req.count < 0 then 0 else req.count)
        invariant specs == Specs(requests[..i]) + Copies(DiceEngine.Request(j, req.sides))
      {
        specs := specs + [req.sides];
        j := j + 1;
      }
      assert requests[..i + 1][..i] == requests[..i];
      assert Copies(DiceEngine.Request(j, req.sides)) == Copies(req);
    }
    assert requests[..|requests|] == requests;
  }

  lemma GroupsExtends(values: seq<int>, requests: seq<DiceEngine.Request>, i: nat)
    requires i < |requests|
    ensures Groups(values, requests)[..i + 1] ==
      Groups(values, requests)[..i] + [JsSlice(values, Cursor(requests[..i]), Cursor(requests[..i + 1]))]
  {
  }

  lemma CursorStep(requests: seq<DiceEngine.Request>, i: nat)
    requires i < |requests|
    ensures Cursor(requests[..i + 1]) == Cursor(requests[..i]) + requests[i].count
  {
    assert requests[..i + 1][..i] == requests[..i];
  }

  /** `rollDiceBoxComposite`: allocates the reply's values to the specs and
      cuts them into one group per request with a running cursor. */
  method RollDiceBoxComposite(requests: seq<DiceEngine.Request>, reply: Reply, draw: nat -> int) returns (results: seq<seq<int>>)
    ensures results == Groups(Allocation(NormalizeRolls(reply), Specs(requests), draw), requests)
  {
    var specs := BuildSpecs(requests);
    var values := AllocateValuesBySpecs(NormalizeRolls(reply), specs, draw);
    results := [];
    var cursor := 0;
    assert requests[..0] == [];
    for i := 0 to |requests|
      invariant cursor == Cursor(requests[..i])
      invariant results == Groups(values, requests)[..i]
    {
      var slice := JsSlice(values, cursor, cursor + requests[i].count);
      cursor := cursor + requests[i].count;
      CursorStep(requests, i);
      GroupsExtends(values, requests, i);
      results := results + [slice];
    }
  }

  /** Concatenation of groups, in order. */
  function Flatten(groups: seq<seq<int>>): seq<int>
  {
    if groups == [] then [] else Flatten(groups[..|groups| - 1]) + groups[|groups| - 1]
  }

  predicate NoNegativeCounts(requests: seq<DiceEngine.Request>)
  {
    forall i :: 0 <= i < |requests| ==> requests[i].count >= 0
  }

  lemma {:induction false} SpecsLength(requests: seq<DiceEngine.Request>)
    requires NoNegativeCounts(requests)
    ensures |Specs(requests)| == Cursor(requests)
    decreases |requests|
  {
    if requests != [] {
      SpecsLength(requests[..|requests| - 1]);
    }
  }

  lemma {:induction false} CursorGrows(requests: seq<DiceEngine.Request>, a: nat, b: nat)
    requires NoNegativeCounts(requests) && a <= b <= |requests|
    ensures Cursor(requests[..a]) <= Cursor(requests[..b])
    decreases b - a
  {
    if a < b {
      assert requests[..b][..b - 1] == requests[..b - 1];
      CursorGrows(requests, a, b - 1);
    }
  }

  lemma CursorBounds(requests: seq<DiceEngine.Request>, i: nat)
    requires NoNegativeCounts(requests) && i <= |requests|
    ensures 0 <= Cursor(requests[..i]) <= Cursor(requests)
  {
    CursorGrows(requests, 0, i);
    CursorGrows(requests, i, |requests|);
    assert requests[..0] == [];
    assert requests[..|requests|] == requests;
  }

  /** With no negative counts, group `i` is the run of values between the
      cursor before request `i` and `count` places further on. */
  lemma GroupSlice(values: seq<int>, requests: seq<DiceEngine.Request>, i: nat)
    requires NoNegativeCounts(requests) && |values| == Cursor(requests) && i < |requests|
    ensures 0 <= Cursor(requests[..i]) && Cursor(requests[..i]) + requests[i].count <= |values|
    ensures Groups(values, requests)[i] == values[Cursor(requests[..i])..Cursor(requests[..i]) + requests[i].count]
  {
    CursorStep(requests, i);
    CursorBounds(requests, i);
    CursorBounds(requests, i + 1);
  }

  lemma FlattenStep(groups: seq<seq<int>>, values: seq<int>, n: nat, a: nat, b: nat)
    requires 0 < n <= |groups| && a <= b <= |values|
    requires Flatten(groups[..n - 1]) == values[..a] && groups[n - 1] == values[a..b]
    ensures Flatten(groups[..n]) == values[..b]
  {
    assert groups[..n][..n - 1] == groups[..n - 1];
    assert values[..a] + values[a..b] == values[..b];
  }

  lemma {:induction false} FlattenPrefix(values: seq<int>, requests: seq<DiceEngine.Request>, n: nat)
    requires NoNegativeCounts(requests) && |values| == Cursor(requests) && n <= |requests|
    ensures 0 <= Cursor(requests[..n]) <= |values|
    ensures Flatten(Groups(values, requests)[..n]) == values[..Cursor(requests[..n])]
  {
    if n == 0 {
      assert requests[..0] == [];
    } else {
      FlattenPrefix(values, requests, n - 1);
      FlattenGrows(values, requests, n);
    }
  }

  /** The prefix property carries over from `n - 1` groups to `n`. */
  lemma FlattenGrows(values: seq<int>, requests: seq<DiceEngine.Request>, n: nat)
    requires NoNegativeCounts(requests) && |values| == Cursor(requests) && 0 < n <= |requests|
    requires 0 <= Cursor(requests[..n - 1]) <= |values|
    requires Flatten(Groups(values, requests)[..n - 1]) == values[..Cursor(requests[..n - 1])]
    ensures 0 <= Cursor(requests[..n]) <= |values|
    ensures Flatten(Groups(values, requests)[..n]) == values[..Cursor(requests[..n])]
  {
    CursorBounds(requests, n);
    GroupSlice(values, requests, n - 1);
    CursorStep(requests, n - 1);
    FlattenStep(Groups(values, requests), values, n, Cursor(requests[..n - 1]), Cursor(requests[..n]));
  }

  /** With no negative counts, group `i` has exactly `count` values, and
      the groups put back together are all the values in order. */
  lemma GroupsPartition(values: seq<int>, requests: seq<DiceEngine.Request>)
    requires NoNegativeCounts(requests) && |values| == Cursor(requests)
    ensures forall i :: 0 <= i < |requests| ==> |Groups(values, requests)[i]| == requests[i].count
    ensures Flatten(Groups(values, requests)) == values
  {
    forall i | 0 <= i < |requests| ensures |Groups(values, requests)[i]| == requests[i].count {
      GroupSlice(values, requests, i);
    }
    FlattenPrefix(values, requests, |requests|);
    assert Groups(values, requests)[..|requests|] == Groups(values, requests);
    assert requests[..|requests|] == requests;
  }

  /** With no negative counts, the specs request `i` adds start at the
      cursor before it. */
  lemma {:induction false} SpecsAt(requests: seq<DiceEngine.Request>, i: nat, t: nat)
    requires NoNegativeCounts(requests) && i < |requests| && t < requests[i].count
    ensures 0 <= Cursor(requests[..i]) && Cursor(requests[..i]) + t < |Specs(requests)|
    ensures Specs(requests)[Cursor(requests[..i]) + t] == requests[i].sides
    decreases |requests|
  {
    var n := |requests| - 1;
    var init := requests[..n];
    SpecsLength(init);
    CursorBounds(requests, i);
    SpecsSnoc(requests);
    if i == n {
      assert requests[..i] == init;
    } else {
      SpecsAt(init, i, t);
      assert init[..i] == requests[..i];
    }
  }

  /** The specs of a non-empty run of requests: those of all but the last,
      then the last one's copies. */
  lemma SpecsSnoc(requests: seq<DiceEngine.Request>)
    requires requests != []
    ensures Specs(requests) == Specs(requests[..|requests| - 1]) + Copies(requests[|requests| - 1])
  {
  }

  /** Each value of group `i` is a value the box reported for request
      `i`'s side count, or a fallback within that die's faces. */
  lemma CompositeValues(rolls: seq<RollObject>, requests: seq<DiceEngine.Request>, draw: nat -> int, i: nat, t: nat)
    requires NoNegativeCounts(requests) && i < |requests| && t < requests[i].count
    ensures |Groups(Allocation(rolls, Specs(requests), draw), requests)[i]| == requests[i].count
    ensures var v := Groups(Allocation(rolls, Specs(requests), draw), requests)[i][t];
      v in Reported(rolls, requests[i].sides) || (1 <= v && (requests[i].sides >= 1 ==> v <= requests[i].sides))
  {
    var values := Allocation(rolls, Specs(requests), draw);
    SpecsLength(requests);
    GroupSlice(values, requests, i);
    SpecsAt(requests, i, t);
    AllocatedFromPoolOrFallback(rolls, Specs(requests), draw, Cursor(requests[..i]) + t);
  }

  /** Negative counts break the partition: the cursor moves back and a
      later request is handed a value an earlier one already got. With
      counts 2, -1 and 1, the third request receives the second value. */
  lemma NegativeCountRereads()
    ensures Groups([1, 2, 3], [DiceEngine.Request(2, 6), DiceEngine.Request(-1, 6), DiceEngine.Request(1, 6)]) == [[1, 2], [], [2]]
  {
    var rs := [DiceEngine.Request(2, 6), DiceEngine.Request(-1, 6), DiceEngine.Request(1, 6)];
    assert rs[..0] == [] && rs[..1] == [rs[0]] && rs[..2] == [rs[0], rs[1]] && rs[..3] == rs;
    assert [rs[0], rs[1]][..1] == [rs[0]];
    assert rs[..3][..2] == [rs[0], rs[1]];
    assert Cursor(rs[..0]) == 0 && Cursor(rs[..1]) == 2 && Cursor(rs[..2]) == 1 && Cursor(rs[..3]) == 2;
    var values := [1, 2, 3];
    assert JsSlice(values, 0, 2) == [1, 2];
    assert JsSlice(values, 2, 1) == [];
    assert JsSlice(values, 1, 2) == [2];
    var groups := Groups(values, rs);
    assert groups[0] == [1, 2] && groups[1] == [] && groups[2] == [2];
  }

  // ---------------------------------------------------------------------
  // rollDiceBoxList

  datatype ListDie = ListDie(sides: Sides, themeColor: Option<string>, data: Option<string>)

  /** The filter of `rollDiceBoxList`: a present die whose sides are a
      finite positive number or any string. */
  predicate Listed(die: Option<ListDie>)
  {
    die.Some? &&
    ((die.value.sides.NumberSides? && die.value.sides.num.Finite? && die.value.sides.num.n > 0) || die.value.sides.TextSides?)
  }

  /** The dice kept by the filter, in order. */
  function Filtered(dice: seq<Option<ListDie>>): (kept: seq<ListDie>)
    ensures |kept| <= |dice|
    ensures forall k :: 0 <= k < |kept| ==> Listed(Some(kept[k])) && Some(kept[k]) in dice
  {
    if dice == [] then []
    else (if Listed(dice[0]) then [dice[0].value] else []) + Filtered(dice[1..])
  }

  /** Every die that passes the filter is kept. */
  lemma {:induction false} FilteredKeepsListed(dice: seq<Option<ListDie>>)
    ensures forall d :: Some(d) in dice && Listed(Some(d)) ==> d in Filtered(dice)
    decreases |dice|
  {
    if dice != [] {
      FilteredKeepsListed(dice[1..]);
      assert forall d :: d in dice ==> d == dice[0] || d in dice[1..];
    }
  }

  /** The spec side count of a kept die: its number, or for a string the
      coerced value, 0 when the string has no digits. */
  function SpecSides(die: ListDie): int
  {
    match die.sides
    case NumberSides(num) => if num.Finite? then num.n else 0
    case _ => CoerceSides(die.sides).GetOr(0)
  }

  function ListSpecs(kept: seq<ListDie>): (specs: seq<int>)
    ensures |specs| == |kept|
  {
    seq(|kept|, k requires 0 <= k < |kept| => SpecSides(kept[k]))
  }

  /** `rollDiceBoxList`: one value per kept die, allocated against the
      kept dice's side counts (a missing list counts as empty). */
  method RollDiceBoxList(dice: Option<seq<Option<ListDie>>>, reply: Reply, draw: nat -> int) returns (values: seq<int>)
    ensures values == Allocation(NormalizeRolls(reply), ListSpecs(Filtered(dice.GetOr([]))), draw)
  {
    var filtered := Filtered(dice.GetOr([]));
    if |filtered| == 0 {
      return [];
    }
    var specs := seq(|filtered|, k requires 0 <= k < |filtered| => SpecSides(filtered[k]));
    values := AllocateValuesBySpecs(NormalizeRolls(reply), specs, draw);
  }

  /** A kept die whose label has no digits asks for 0 sides, which no
      reported value matches, so it always shows 1; a numeric die shows a
      reported value for its side count or a fallback within its faces. */
  lemma ListValues(dice: seq<Option<ListDie>>, rolls: seq<RollObject>, draw: nat -> int, k: nat)
    requires k < |Filtered(dice)|
    ensures var die := Filtered(dice)[k];
      var v := Allocation(rolls, ListSpecs(Filtered(dice)), draw)[k];
      (die.sides.TextSides? && CoerceSides(die.sides).None? ==> v == 1) &&
      (die.sides.NumberSides? ==> v in Reported(rolls, die.sides.num.n) || 1 <= v <= die.sides.num.n)
  {
    ReportedZero(rolls);
    AllocatedFromPoolOrFallback(rolls, ListSpecs(Filtered(dice)), draw, k);
  }
}
