/** The Interpret button of the journal editor (InterpretButton.tsx): it
    finds the `<!-- forge:oracle key=value ... -->` comments that logged
    table results leave in an entry, reads each comment's attributes into
    an oracle result, and is disabled when there is nothing to interpret.
    The two regular expressions are modelled by the matches their
    backtracking search finds; JSON decoding of the tags attribute is a
    parameter. */
module InterpretButton {
  import opened Wrappers
  import opened Text
  import opened OraclePrompts

  /** The length of the longest run of characters satisfying `p` from `i`. */
  function RunOf(s: string, i: nat, p: char -> bool): (n: nat)
    requires i <= |s|
    ensures i + n <= |s|
    ensures forall k :: i <= k < i + n ==> p(s[k])
    ensures i + n == |s| || !p(s[i + n])
    decreases |s| - i
  {
    if i == |s| || !p(s[i]) then 0 else 1 + RunOf(s, i + 1, p)
  }

  /** `[^>-]`: the characters an attribute text may hold. */
  predicate AttrChar(c: char) { c != '>' && c != '-' }

  /** `[a-zA-Z0-9_:-]`: the characters of an attribute name. */
  predicate KeyChar(c: char)
  {
    'a' <= c <= 'z' || 'A' <= c <= 'Z' || '0' <= c <= '9' || c == '_' || c == ':' || c == '-'
  }

  predicate NotSpace(c: char) { !IsSpace(c) }

  predicate AllAttrChars(s: string) { forall i :: 0 <= i < |s| ==> AttrChar(s[i]) }

  // The comment pattern `<!--\s*forge:oracle\s+([^>-]+)-->?`

  /** A match of the comment pattern: its captured attribute text and the
      position after it. */
  datatype CommentMatch = CommentMatch(attrs: string, end: nat)

  /** `-->?` ends after an optional '>'. */
  function CloseEnd(s: string, e: nat): (r: nat)
    requires e <= |s|
    ensures e <= r <= |s|
  {
    if e < |s| && s[e] == '>' then e + 1 else e
  }

  /** The match of the comment pattern starting at `p`, if any. The first
      `\s*` must take every space before "forge:oracle". The second `\s+`
      takes every space; the capture then runs to the first '>' or '-',
      which must open "--". When the capture would be empty there, the
      search gives one space back to it, which needs at least two spaces. */
  function MatchCommentAt(s: string, p: nat): (r: Option<CommentMatch>)
    requires p <= |s|
    ensures r.Some? ==> p < r.value.end <= |s| && r.value.attrs != [] && AllAttrChars(r.value.attrs)
  {
    if !OccursAt(s, "<!--", p) then None
    else
      var a := p + 4 + RunOf(s, p + 4, IsSpace);
      if !OccursAt(s, "forge:oracle", a) then None
      else CaptureFrom(s, a + 12)
  }

  /** The rest of the pattern after "forge:oracle", from `q`: the spaces,
      the capture and the closing "--". */
  function CaptureFrom(s: string, q: nat): (r: Option<CommentMatch>)
    requires q <= |s|
    ensures r.Some? ==> q < r.value.end <= |s| && r.value.attrs != [] && AllAttrChars(r.value.attrs)
  {
    var w := RunOf(s, q, IsSpace);
    var r := q + w;
    var n := RunOf(s, r, AttrChar);
    if w == 0 then None
    else if n > 0 then
      if OccursAt(s, "--", r + n) then
        AttrRun(s, r, n);
        Some(CommentMatch(s[r..r + n], CloseEnd(s, r + n + 2)))
      else None
    else if w >= 2 && OccursAt(s, "--", r) then
      assert IsSpace(s[r - 1]) && AttrChar(s[r - 1]);
      AttrRun(s, r - 1, 1);
      Some(CommentMatch(s[r - 1..r], CloseEnd(s, r + 2)))
    else None
  }

  lemma AttrRun(s: string, r: nat, n: nat)
    requires r + n <= |s| && forall k :: r <= k < r + n ==> AttrChar(s[k])
    ensures AllAttrChars(s[r..r + n])
  {
    var t := s[r..r + n];
    forall i | 0 <= i < |t| ensures AttrChar(t[i]) {
      assert t[i] == s[r + i];
    }
  }

  /** `regex.exec` from `from`: the leftmost match at or after it. */
  function FindComment(s: string, from: nat): (r: Option<CommentMatch>)
    requires from <= |s|
    ensures r.Some? ==> from < r.value.end <= |s| && r.value.attrs != [] && AllAttrChars(r.value.attrs)
    decreases |s| - from
  {
    var m := MatchCommentAt(s, from);
    if m.Some? then m else if from == |s| then None else FindComment(s, from + 1)
  }

  /** The attribute texts of every comment from `from` on, in order: each
      search resumes where the previous match ended. */
  function Comments(s: string, from: nat): (cs: seq<string>)
    requires from <= |s|
    ensures forall i :: 0 <= i < |cs| ==> cs[i] != [] && AllAttrChars(cs[i])
    decreases |s| - from
  {
    match FindComment(s, from)
    case None => []
    case Some(m) => [m.attrs] + Comments(s, m.end)
  }

  // The attribute pattern `([a-zA-Z0-9_:-]+)=(?:"([^"]*)"|'([^']*)'|([^\s]*))`

  datatype Pair = Pair(key: string, value: string)
  datatype PairMatch = PairMatch(pair: Pair, end: nat)

  /** Every character of `t` occurs in `s`. */
  predicate CharsFrom(t: string, s: string)
  {
    forall i :: 0 <= i < |t| ==> t[i] in s
  }

  lemma SliceCharsFrom(s: string, a: nat, b: nat)
    requires a <= b <= |s|
    ensures CharsFrom(s[a..b], s)
  {
    forall i | 0 <= i < b - a ensures s[a..b][i] in s {
      assert s[a..b][i] == s[a + i];
    }
  }

  /** The value after `=` at `v`: double-quoted when a closing '"'
      follows, else single-quoted when a closing '\'' follows, else the run
      of non-space characters (which may be empty). */
  function ValueAt(a: string, v: nat): (r: (string, nat))
    requires v <= |a|
    ensures v <= r.1 <= |a| && CharsFrom(r.0, a)
  {
    if v < |a| && a[v] == '"' && '"' in a[v + 1..] then
      var c := IndexOf(a[v + 1..], '"');
      SliceCharsFrom(a, v + 1, v + 1 + c);
      (a[v + 1..v + 1 + c], v + c + 2)
    else if v < |a| && a[v] == '\'' && '\'' in a[v + 1..] then
      var c := IndexOf(a[v + 1..], '\'');
      SliceCharsFrom(a, v + 1, v + 1 + c);
      (a[v + 1..v + 1 + c], v + c + 2)
    else
      var m := RunOf(a, v, NotSpace);
      SliceCharsFrom(a, v, v + m);
      (a[v..v + m], v + m)
  }

  /** The match of the attribute pattern at `p`: a name made of name
      characters, which must be followed by '=', then the value. */
  function MatchPairAt(a: string, p: nat): (r: Option<PairMatch>)
    requires p <= |a|
    ensures r.Some? ==> p < r.value.end <= |a| && CharsFrom(r.value.pair.value, a)
  {
    var n := RunOf(a, p, KeyChar);
    if n == 0 || p + n == |a| || a[p + n] != '=' then None
    else
      var v := ValueAt(a, p + n + 1);
      Some(PairMatch(Pair(a[p..p + n], v.0), v.1))
  }

  /** `pairRe.exec` from `from`: the leftmost match at or after it. */
  function FindPair(a: string, from: nat): (r: Option<PairMatch>)
    requires from <= |a|
    ensures r.Some? ==> from < r.value.end <= |a| && CharsFrom(r.value.pair.value, a)
    decreases |a| - from
  {
    var m := MatchPairAt(a, from);
    if m.Some? then m else if from == |a| then None else FindPair(a, from + 1)
  }

  /** Every attribute from `from` on, in order. */
  function PairsFrom(a: string, from: nat): (ps: seq<Pair>)
    requires from <= |a|
    ensures forall i :: 0 <= i < |ps| ==> CharsFrom(ps[i].value, a)
    decreases |a| - from
  {
    match FindPair(a, from)
    case None => []
    case Some(m) => [m.pair] + PairsFrom(a, m.end)
  }

  /** Storing the pairs one after the other into `m`. */
  function Assign(pairs: seq<Pair>, m: map<string, string>): map<string, string>
  {
    if pairs == [] then m else Assign(pairs[1..], m[pairs[0].key := pairs[0].value])
  }

  /** The attribute record of one comment. */
  function Attributes(a: string): map<string, string>
  {
    Assign(PairsFrom(a, 0), map[])
  }

  /** The inner loop of `parseForgeOracleComments`: every attribute match
      stored under its name. */
  method ParseAttributes(attrString: string) returns (attrs: map<string, string>)
    ensures attrs == Attributes(attrString)
  {
    attrs := map[];
    var lastIndex := 0;
    while true
      invariant lastIndex <= |attrString|
      invariant Assign(PairsFrom(attrString, lastIndex), attrs) == Attributes(attrString)
      decreases |attrString| - lastIndex
    {
      var pm := FindPair(attrString, lastIndex);
      if pm.None? {
        break;
      }
      attrs := attrs[pm.value.pair.key := pm.value.pair.value];
      lastIndex := pm.value.end;
    }
  }

  /** The record holds exactly the names stored before and the names of
      the pairs. */
  lemma {:induction false} AssignKeys(pairs: seq<Pair>, m: map<string, string>)
    ensures Assign(pairs, m).Keys == m.Keys + set i | 0 <= i < |pairs| :: pairs[i].key
    decreases |pairs|
  {
    if pairs != [] {
      AssignKeys(pairs[1..], m[pairs[0].key := pairs[0].value]);
      var later := set i | 0 <= i < |pairs[1..]| :: pairs[1..][i].key;
      var all := set i | 0 <= i < |pairs| :: pairs[i].key;
      assert all == {pairs[0].key} + later by {
        forall k | k in all ensures k in {pairs[0].key} + later {
          var i :| 0 <= i < |pairs| && pairs[i].key == k;
          if i > 0 {
            assert pairs[1..][i - 1].key == k;
          }
        }
        forall k | k in later ensures k in all {
          var i :| 0 <= i < |pairs[1..]| && pairs[1..][i].key == k;
          assert pairs[i + 1].key == k;
        }
      }
    }
  }

  /** A later pair with the same name overrides an earlier one: the value
      stored under a name is that of its last pair. */
  lemma {:induction false} AssignLastWins(pairs: seq<Pair>, m: map<string, string>, i: nat)
    requires i < |pairs|
    requires forall j :: i < j < |pairs| ==> pairs[j].key != pairs[i].key
    ensures pairs[i].key in Assign(pairs, m) && Assign(pairs, m)[pairs[i].key] == pairs[i].value
    decreases |pairs|
  {
    if i == 0 {
      AssignUntouched(pairs[1..], m[pairs[0].key := pairs[0].value], pairs[0].key);
    } else {
      AssignLastWins(pairs[1..], m[pairs[0].key := pairs[0].value], i - 1);
    }
  }

  /** A name no pair has keeps the value it had. */
  lemma {:induction false} AssignUntouched(pairs: seq<Pair>, m: map<string, string>, k: string)
    requires k in m
    requires forall j :: 0 <= j < |pairs| ==> pairs[j].key != k
    ensures k in Assign(pairs, m) && Assign(pairs, m)[k] == m[k]
    decreases |pairs|
  {
    if pairs != [] {
      AssignUntouched(pairs[1..], m[pairs[0].key := pairs[0].value], k);
    }
  }

  /** Every stored value came from `m` or from a pair. */
  lemma {:induction false} AssignValues(pairs: seq<Pair>, m: map<string, string>, k: string)
    requires k in Assign(pairs, m)
    ensures (k in m && Assign(pairs, m)[k] == m[k]) ||
      exists j :: 0 <= j < |pairs| && Assign(pairs, m)[k] == pairs[j].value
    decreases |pairs|
  {
    if pairs != [] {
      var m' := m[pairs[0].key := pairs[0].value];
      AssignValues(pairs[1..], m', k);
      if exists j :: 0 <= j < |pairs[1..]| && Assign(pairs, m)[k] == pairs[1..][j].value {
        var j :| 0 <= j < |pairs[1..]| && Assign(pairs, m)[k] == pairs[1..][j].value;
        assert pairs[j + 1] == pairs[1..][j];
      } else if k == pairs[0].key {
        assert Assign(pairs, m)[k] == pairs[0].value;
      }
    }
  }

  /** A double-quoted value at `v` that closes at the end of the text. */
  lemma ValueQuoted(a: string, v: nat, value: string)
    requires v < |a| && a[v] == '"' && a[v + 1..] == value + "\"" && '"' !in value
    ensures ValueAt(a, v) == (value, |a|)
  {
    var t := a[v + 1..];
    assert t[|value|] == '"';
    IndexOfAt(t, '"', |value|);
    assert t[..|value|] == value;
    assert a[v + 1..v + 1 + |value|] == t[..|value|];
  }

  /** A name followed by '=' at the start of the text. */
  lemma KeyThenEquals(a: string, key: string)
    requires key != [] && forall i :: 0 <= i < |key| ==> KeyChar(key[i])
    requires |key| < |a| && a[..|key|] == key && a[|key|] == '='
    ensures RunOf(a, 0, KeyChar) == |key|
  {
    RunOfAt(a, 0, KeyChar, |key|);
  }

  /** The only pair of a double-quoted attribute text. */
  lemma QuotedPairs(a: string, key: string, value: string)
    requires key != [] && forall i :: 0 <= i < |key| ==> KeyChar(key[i])
    requires '"' !in value
    requires a == key + ("=\"" + (value + "\""))
    ensures PairsFrom(a, 0) == [Pair(key, value)]
  {
    QuotedMatch(a, key, value);
    assert FindPair(a, 0) == MatchPairAt(a, 0);
    assert PairsFrom(a, |a|) == [];
  }

  lemma QuotedMatch(a: string, key: string, value: string)
    requires key != [] && forall i :: 0 <= i < |key| ==> KeyChar(key[i])
    requires '"' !in value
    requires a == key + ("=\"" + (value + "\""))
    ensures MatchPairAt(a, 0) == Some(PairMatch(Pair(key, value), |a|))
  {
    QuotedShape(a, key, value);
    QuotedAt(a, key, value);
  }

  /** The pair of a text laid out as `key="value"`. */
  lemma QuotedAt(a: string, key: string, value: string)
    requires key != [] && forall i :: 0 <= i < |key| ==> KeyChar(key[i])
    requires '"' !in value
    requires |key| + 1 < |a| && a[..|key|] == key && a[|key|] == '=' && a[|key| + 1] == '"'
    requires a[|key| + 2..] == value + "\""
    ensures MatchPairAt(a, 0) == Some(PairMatch(Pair(key, value), |a|))
  {
    KeyThenEquals(a, key);
    ValueQuoted(a, |key| + 1, value);
    MatchPairOf(a, |key|, value);
  }

  /** Where the parts of `key="value"` sit in its text. */
  lemma QuotedShape(a: string, key: string, value: string)
    requires a == key + ("=\"" + (value + "\""))
    ensures |key| + 1 < |a| && a[..|key|] == key && a[|key|] == '=' && a[|key| + 1] == '"'
    ensures a[|key| + 2..] == value + "\""
  {
    Consume(key, "=\"" + (value + "\""));
    assert a[|key| + 2..] == ("=\"" + (value + "\""))[2..];
  }

  /** A name of `n` characters, `=` and a value ending the text make the
      pair at its start. */
  lemma MatchPairOf(a: string, n: nat, value: string)
    requires 0 < n < |a| && RunOf(a, 0, KeyChar) == n && a[n] == '='
    requires ValueAt(a, n + 1) == (value, |a|)
    ensures MatchPairAt(a, 0) == Some(PairMatch(Pair(a[..n], value), |a|))
  {
    var r := MatchPairAt(a, 0);
  }

  /** A double-quoted attribute reads back as its name and value. */
  lemma QuotedPairReadsBack(key: string, value: string)
    requires key != [] && forall i :: 0 <= i < |key| ==> KeyChar(key[i])
    requires '"' !in value
    ensures Attributes(key + "=\"" + value + "\"") == map[key := value]
  {
    var a := key + ("=\"" + (value + "\""));
    assert a == key + "=\"" + value + "\"";
    QuotedPairs(a, key, value);
    assert Assign([Pair(key, value)], map[]) == map[key := value];
  }

  /** A run that ends at the first character failing `p` has that length. */
  lemma {:induction false} RunOfAt(s: string, i: nat, p: char -> bool, n: nat)
    requires i + n <= |s|
    requires forall k :: i <= k < i + n ==> p(s[k])
    requires i + n == |s| || !p(s[i + n])
    ensures RunOf(s, i, p) == n
    decreases n
  {
    if n > 0 {
      RunOfAt(s, i + 1, p, n - 1);
    }
  }

  // Payloads

  /** `attrs.key ?? ''`. */
  function Get(attrs: map<string, string>, key: string): string
  {
    if key in attrs then attrs[key] else []
  }

  /** The roll: a non-empty roll attribute read by `parseInt`, with NaN
      (and a missing or empty attribute) giving 0. */
  function RollOf(attrs: map<string, string>): int
  {
    var text := Get(attrs, "roll");
    if text == [] then 0 else ParseInt(text).GetOr(0)
  }

  /** The comma fallback for tags: split on ',', trim each, drop empties. */
  function SplitTags(text: string): seq<string>
  {
    NonEmptyTrimmed(Split(text, ','))
  }

  function NonEmptyTrimmed(parts: seq<string>): seq<string>
  {
    if parts == [] then []
    else (if Trim(parts[0]) == [] then [] else [Trim(parts[0])]) + NonEmptyTrimmed(parts[1..])
  }

  predicate Tag(t: string) { t != [] && ',' !in t }

  /** The fallback's tags are non-empty and hold no comma. */
  lemma {:induction false} NonEmptyTrimmedClean(parts: seq<string>)
    requires forall i :: 0 <= i < |parts| ==> ',' !in parts[i]
    ensures forall i :: 0 <= i < |NonEmptyTrimmed(parts)| ==> Tag(NonEmptyTrimmed(parts)[i])
    decreases |parts|
  {
    if parts != [] {
      var p0 := parts[0];
      var tail := parts[1..];
      assert forall i :: 0 <= i < |tail| ==> ',' !in tail[i] by {
        forall i | 0 <= i < |tail| ensures ',' !in tail[i] {
          assert tail[i] == parts[i + 1];
        }
      }
      NonEmptyTrimmedClean(tail);
      assert ',' !in p0;
      TrimIsPiece(p0, ',');
      var rest := NonEmptyTrimmed(tail);
      assert forall i :: 0 <= i < |rest| ==> Tag(rest[i]);
      HeadTag(Trim(p0), rest);
    }
  }

  lemma HeadTag(t: string, rest: seq<string>)
    requires ',' !in t && forall i :: 0 <= i < |rest| ==> Tag(rest[i])
    ensures var h: seq<string> := if t == [] then [] else [t];
      forall i :: 0 <= i < |h + rest| ==> Tag((h + rest)[i])
  {
  }

  lemma SplitTagsClean(text: string)
    ensures var tags := SplitTags(text);
      forall i :: 0 <= i < |tags| ==> Tag(tags[i])
  {
    var parts := Split(text, ',');
    SplitPieces(text, ',');
    assert forall i :: 0 <= i < |parts| ==> ',' !in parts[i];
    NonEmptyTrimmedClean(parts);
    assert SplitTags(text) == NonEmptyTrimmed(parts);
  }

  /** A trimmed string holds no character the untrimmed one lacks. */
  lemma TrimIsPiece(s: string, c: char)
    requires c !in s
    ensures c !in Trim(s)
  {
    var t := TrimStart(s);
    assert t == s[|s| - |t|..];
    var r := TrimEnd(t);
    assert r == t[..|r|];
  }

  /** The tags: none without a tags attribute; its JSON decoding when that
      succeeds; the comma fallback otherwise. */
  function TagsOf(text: string, jsonTags: string -> Option<seq<string>>): seq<string>
  {
    if text == [] then []
    else
      match jsonTags(text)
      case Some(tags) => tags
      case None => SplitTags(text)
  }

  /** The payload one comment's attributes give, or none without a
      table id. */
  function PayloadOf(attrs: map<string, string>, jsonTags: string -> Option<seq<string>>): Option<OracleResult>
  {
    var tableId := Get(attrs, "tableId");
    if tableId == [] then None
    else Some(OracleResult(tableId, Get(attrs, "tableName"), RollOf(attrs), Get(attrs, "result"),
                           TagsOf(Get(attrs, "tags"), jsonTags), Get(attrs, "sourcePath")))
  }

  /** The attribute records of a list of attribute texts. */
  function RecordsOf(texts: seq<string>): (rs: seq<map<string, string>>)
    ensures |rs| == |texts|
    ensures forall i :: 0 <= i < |texts| ==> rs[i] == Attributes(texts[i])
  {
    if texts == [] then [] else [Attributes(texts[0])] + RecordsOf(texts[1..])
  }

  function AsSeq(o: Option<OracleResult>): seq<OracleResult>
  {
    if o.Some? then [o.value] else []
  }

  /** The payloads of a list of attribute records, in order. */
  function Collect(records: seq<map<string, string>>, jsonTags: string -> Option<seq<string>>): seq<OracleResult>
  {
    if records == [] then [] else AsSeq(PayloadOf(records[0], jsonTags)) + Collect(records[1..], jsonTags)
  }

  /** What `parseForgeOracleComments` returns for an entry. */
  function ParsedPayloads(content: string, jsonTags: string -> Option<seq<string>>): seq<OracleResult>
  {
    Collect(RecordsOf(Comments(content, 0)), jsonTags)
  }

  /** One step of the outer loop: the next comment's payload, then those
      of the comments after it. */
  lemma PayloadsStep(content: string, from: nat, attrs: map<string, string>, jsonTags: string -> Option<seq<string>>,
                     results: seq<OracleResult>, total: seq<OracleResult>)
    requires from <= |content| && FindComment(content, from).Some?
    requires attrs == Attributes(FindComment(content, from).value.attrs)
    requires results + Collect(RecordsOf(Comments(content, from)), jsonTags) == total
    ensures var m := FindComment(content, from).value;
      (results + AsSeq(PayloadOf(attrs, jsonTags))) + Collect(RecordsOf(Comments(content, m.end)), jsonTags) == total
  {
    var m := FindComment(content, from).value;
    var rest := Comments(content, m.end);
    CommentsCons(content, from);
    RecordsCons(m.attrs, rest);
    CollectCons(Attributes(m.attrs), RecordsOf(rest), jsonTags);
    AppendAssociates(results, AsSeq(PayloadOf(attrs, jsonTags)), Collect(RecordsOf(rest), jsonTags));
  }

  lemma CommentsCons(content: string, from: nat)
    requires from <= |content| && FindComment(content, from).Some?
    ensures var m := FindComment(content, from).value;
      m.end <= |content| && Comments(content, from) == [m.attrs] + Comments(content, m.end)
  {
  }

  lemma AppendAssociates(a: seq<OracleResult>, b: seq<OracleResult>, c: seq<OracleResult>)
    ensures a + (b + c) == (a + b) + c
  {
  }

  lemma RecordsCons(text: string, rest: seq<string>)
    ensures RecordsOf([text] + rest) == [Attributes(text)] + RecordsOf(rest)
  {
    assert ([text] + rest)[1..] == rest;
  }

  lemma CollectCons(record: map<string, string>, rest: seq<map<string, string>>, jsonTags: string -> Option<seq<string>>)
    ensures Collect([record] + rest, jsonTags) == AsSeq(PayloadOf(record, jsonTags)) + Collect(rest, jsonTags)
  {
    assert ([record] + rest)[1..] == rest;
  }

  lemma PayloadsDone(content: string, from: nat, jsonTags: string -> Option<seq<string>>)
    requires from <= |content| && FindComment(content, from).None?
    ensures Collect(RecordsOf(Comments(content, from)), jsonTags) == []
    ensures forall results: seq<OracleResult> :: results + Collect(RecordsOf(Comments(content, from)), jsonTags) == results
  {
    forall results: seq<OracleResult> ensures results + [] == results { }
  }

  /** `parseForgeOracleComments`: each comment in turn, its attributes
      read by the inner loop, its payload kept when it names a table. */
  method ParseForgeOracleComments(content: string, jsonTags: string -> Option<seq<string>>)
    returns (results: seq<OracleResult>)
    ensures results == ParsedPayloads(content, jsonTags)
  {
    results := [];
    if content == [] {
      PayloadsDone(content, 0, jsonTags);
      return;
    }
    var lastIndex := 0;
    while true
      invariant lastIndex <= |content|
      invariant results + Collect(RecordsOf(Comments(content, lastIndex)), jsonTags) == ParsedPayloads(content, jsonTags)
      decreases |content| - lastIndex
    {
      var m := FindComment(content, lastIndex);
      if m.None? {
        PayloadsDone(content, lastIndex, jsonTags);
        break;
      }
      var attrs := ParseAttributes(m.value.attrs);
      PayloadsStep(content, lastIndex, attrs, jsonTags, results, ParsedPayloads(content, jsonTags));
      results := results + AsSeq(PayloadOf(attrs, jsonTags));
      lastIndex := m.value.end;
    }
  }

  /** A record gives at most one payload, and gives one exactly when it
      names a table. */
  lemma HeadPayload(record: map<string, string>, jsonTags: string -> Option<seq<string>>)
    ensures var h := AsSeq(PayloadOf(record, jsonTags));
      |h| <= 1 && (h == [] <==> Get(record, "tableId") == []) && (h != [] ==> h[0].tableId != [])
  {
  }

  /** Every payload comes from a record that names a table, and there are
      no more payloads than records. */
  lemma {:induction false} CollectNamesTables(records: seq<map<string, string>>, jsonTags: string -> Option<seq<string>>)
    ensures var ps := Collect(records, jsonTags);
      |ps| <= |records| && forall i :: 0 <= i < |ps| ==> ps[i].tableId != []
    decreases |records|
  {
    if records != [] {
      CollectNamesTables(records[1..], jsonTags);
      HeadPayload(records[0], jsonTags);
      var head: seq<OracleResult> := AsSeq(PayloadOf(records[0], jsonTags));
      var rest: seq<OracleResult> := Collect(records[1..], jsonTags);
      assert Collect(records, jsonTags) == head + rest;
      forall i | 0 <= i < |head + rest| ensures (head + rest)[i].tableId != [] {
        if i >= |head| {
          assert (head + rest)[i] == rest[i - |head|];
        }
      }
    }
  }

  /** There is no payload exactly when no record names a table. */
  lemma {:induction false} CollectEmptyIff(records: seq<map<string, string>>, jsonTags: string -> Option<seq<string>>)
    ensures Collect(records, jsonTags) == [] <==> forall i :: 0 <= i < |records| ==> Get(records[i], "tableId") == []
    decreases |records|
  {
    if records != [] {
      CollectEmptyIff(records[1..], jsonTags);
      HeadPayload(records[0], jsonTags);
      var head: seq<OracleResult> := AsSeq(PayloadOf(records[0], jsonTags));
      var rest: seq<OracleResult> := Collect(records[1..], jsonTags);
      assert Collect(records, jsonTags) == head + rest;
      var tail := records[1..];
      assert forall i :: 0 < i < |records| ==> records[i] == tail[i - 1];
    }
  }

  /** The fields of a payload: missing text attributes are empty, the roll
      is 0 unless a numeral was given, and the comma fallback yields
      trimmed, non-empty tags without commas. */
  lemma PayloadFields(attrs: map<string, string>, jsonTags: string -> Option<seq<string>>)
    ensures PayloadOf(attrs, jsonTags).Some? <==> "tableId" in attrs && attrs["tableId"] != []
    ensures PayloadOf(attrs, jsonTags).Some? ==>
      var p := PayloadOf(attrs, jsonTags).value;
      ("tableName" !in attrs ==> p.tableName == []) &&
      ("result" !in attrs ==> p.resultText == []) &&
      ("sourcePath" !in attrs ==> p.sourcePath == []) &&
      (("roll" !in attrs || ParseInt(attrs["roll"]).None?) ==> p.roll == 0) &&
      ("roll" in attrs && ParseInt(attrs["roll"]).Some? ==> p.roll == ParseInt(attrs["roll"]).value) &&
      ("tags" in attrs && attrs["tags"] != [] && jsonTags(attrs["tags"]).None? ==>
        forall i :: 0 <= i < |p.tags| ==> Tag(p.tags[i]))
  {
    if "tags" in attrs {
      SplitTagsClean(attrs["tags"]);
    }
    if "roll" in attrs && attrs["roll"] == [] {
      assert ParseInt([]).None?;
    }
  }

  /** An attribute value read from a comment never holds '-' or '>': a
      comment whose attributes do stops at the first such character and
      is not matched there. */
  lemma AttributeValuesClean(content: string, i: nat, key: string)
    requires i < |Comments(content, 0)|
    requires key in Attributes(Comments(content, 0)[i])
    ensures AllAttrChars(Attributes(Comments(content, 0)[i])[key])
  {
    var a := Comments(content, 0)[i];
    var ps := PairsFrom(a, 0);
    AssignValues(ps, map[], key);
    var j :| 0 <= j < |ps| && Assign(ps, map[])[key] == ps[j].value;
    assert CharsFrom(ps[j].value, a);
  }

  /** `disabled`: while working, without results, or without an entry. */
  function Disabled(isWorking: bool, results: seq<OracleResult>, entryId: Option<string>): bool
  {
    isWorking || |results| == 0 || entryId.None? || entryId.value == []
  }

  /** The button is enabled exactly when it is idle, some comment of the
      entry names a table, and an entry is open. */
  lemma DisabledIff(content: string, jsonTags: string -> Option<seq<string>>, isWorking: bool, entryId: Option<string>)
    ensures var records := RecordsOf(Comments(content, 0));
      !Disabled(isWorking, ParsedPayloads(content, jsonTags), entryId) <==>
      !isWorking && entryId.Some? && entryId.value != [] &&
      exists i :: 0 <= i < |records| && Get(records[i], "tableId") != []
  {
    var records := RecordsOf(Comments(content, 0));
    CollectEmptyIff(records, jsonTags);
  }
}
