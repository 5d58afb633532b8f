/** How the storage reads the text of a criterion: mostly as a value to be equal to, but also as a pattern or a
    comparison. */
module StorageCriteria {
  import opened DnsNames
  import opened Sequences

  /** A range that is not written as one raises an index error. */
  datatype Clause =
    | Likes(pattern: string)
    | Differs(text: string)
    | AtMost(bound: string)
    | Under(bound: string)
    | AtLeast(bound: string)
    | Over(bound: string)
    | Within(low: string, high: string)
    | Equals(text: string)
    | Malformed

  predicate StartsWith(text: string, start: string) {
    |start| <= |text| && text[..|start|] == start
  }

  function Stripped(text: string): string {
    if text == "" then ""
    else if text[0] == ' ' then Stripped(text[1..])
    else if text[|text| - 1] == ' ' then Stripped(text[..|text| - 1])
    else text
  }

  /** What follows the first space, split at the commas. */
  function Bounds(value: string): Clause {
    var words := Split(value, ' ');
    if |words| == 1 then Malformed
    else
      var parts := Split(Stripped(Join(words[1..], ' ')), ',');
      if |parts| == 1 then Malformed else Within(Stripped(parts[0]), Stripped(parts[1]))
  }

  function Read(value: string): Clause {
    if '%' in value then Likes(value)
    else if StartsWith(value, "!") then Differs(value[1..])
    else if StartsWith(value, "<=") then AtMost(value[2..])
    else if StartsWith(value, "<") then Under(value[1..])
    else if StartsWith(value, ">=") then AtLeast(value[2..])
    else if StartsWith(value, ">") then Over(value[1..])
    else if StartsWith(value, "BETWEEN") then Bounds(value)
    else Equals(value)
  }

  /** The order of texts, character by character. */
  predicate Before(a: string, b: string) {
    if b == "" then false
    else if a == "" then true
    else a[0] < b[0] || (a[0] == b[0] && Before(a[1..], b[1..]))
  }

  predicate Holds(clause: Clause, text: string) {
    match clause
    case Likes(pattern) => Like(pattern, text)
    case Differs(other) => text != other
    case AtMost(bound) => !Before(bound, text)
    case Under(bound) => Before(text, bound)
    case AtLeast(bound) => !Before(text, bound)
    case Over(bound) => Before(bound, text)
    case Within(low, high) => !Before(text, low) && !Before(high, text)
    case Equals(other) => text == other
    case Malformed => false
  }

  // ---------------------------------------------------------------- names as criteria

  predicate Wildcard(name: string) {
    name != "" && name[0] == '*'
  }

  /** Names that begin with an asterisk are looked up in the column of reversed names. */
  function NameClause(name: string): Clause {
    if Wildcard(name) then Read(Reverse(name)) else Read(name)
  }

  predicate Readable(name: string) {
    NameClause(name) != Malformed
  }

  /** The zone is found when this name is looked up. */
  predicate Hits(name: string, zone: string) {
    Holds(NameClause(name), if Wildcard(name) then Reverse(zone) else zone)
  }

  /** The name is read as a value to be equal to. */
  predicate Plain(name: string) {
    NameClause(name).Equals?
  }

  lemma {:induction false} PlainNamesHitThemselves(name: string, zone: string)
    requires Plain(name)
    ensures Readable(name) && (Hits(name, zone) <==> zone == name)
  {
    if Wildcard(name) && Reverse(zone) == Reverse(name) {
      ReverseTwice(zone);
      ReverseTwice(name);
    }
  }

  predicate ZoneText(name: string) {
    forall i :: 0 <= i < |name| ==> NameChar(name[i]) || name[i] == '.'
  }

  /** The characters of zone names leave one special reading: a name that begins with BETWEEN is no range. */
  lemma {:induction false} ZoneTextIsPlain(name: string)
    requires ZoneText(name)
    ensures Plain(name) <==> !StartsWith(name, "BETWEEN")
    ensures Readable(name) <==> !StartsWith(name, "BETWEEN")
  {
    assert ' ' !in name && '%' !in name;
    SplitWithout(name, ' ');
  }

  /** Behind no dot of the name does its text begin like a range. */
  ghost predicate NoRange(name: string) {
    forall text :: text == name || Below(name, text) ==> !StartsWith(text, "BETWEEN")
  }

  lemma {:induction false} LevelIsReadable(name: string, text: string)
    requires ZoneText(name) && (text == name || Below(name, text))
    ensures Readable(text) <==> !StartsWith(text, "BETWEEN")
  {
    assert forall k :: 0 <= k < |text| ==> text[k] == name[|name| - |text| + k];
    ZoneTextIsPlain(text);
  }

  lemma {:induction false} RangesWithoutSpaces(name: string)
    requires ' ' !in name && '%' !in name && StartsWith(name, "BETWEEN")
    ensures !Readable(name)
  {
    assert name[0] == name[..7][0] == 'B';
    SplitWithout(name, ' ');
  }

  // ---------------------------------------------------------------- the order of texts

  /** The texts differ here for the first time. */
  ghost predicate DiffersAt(a: string, b: string, d: nat) {
    d <= |a| && d < |b| && (forall k :: 0 <= k < d ==> a[k] == b[k]) && (d == |a| || a[d] < b[d])
  }

  lemma {:induction false} FirstDifference(a: string, b: string) returns (d: nat)
    requires Before(a, b)
    ensures DiffersAt(a, b, d)
    decreases |a|
  {
    if a == "" || a[0] < b[0] {
      d := 0;
    } else {
      d := FirstDifference(a[1..], b[1..]);
      d := d + 1;
      assert forall k :: 1 <= k < d ==> a[k] == a[1..][k - 1] == b[1..][k - 1] == b[k];
    }
  }

  lemma {:induction false} DifferenceDecides(a: string, b: string, d: nat)
    requires DiffersAt(a, b, d)
    ensures Before(a, b) && !Before(b, a)
    decreases |a|
  {
    if d == 0 {
    } else {
      DifferenceDecides(a[1..], b[1..], d - 1);
    }
  }

  lemma {:induction false} NotBothBefore(a: string, b: string)
    requires Before(a, b)
    ensures !Before(b, a)
  {
    var d := FirstDifference(a, b);
    DifferenceDecides(a, b, d);
  }

  lemma {:induction false} BeforeIsTotal(a: string, b: string)
    ensures Before(a, b) || a == b || Before(b, a)
    decreases |a|
  {
    if a == "" || b == "" {
    } else {
      BeforeIsTotal(a[1..], b[1..]);
      assert a == [a[0]] + a[1..] && b == [b[0]] + b[1..];
    }
  }

  lemma {:induction false} BeforeIsTransitive(a: string, b: string, c: string)
    requires Before(a, b) && Before(b, c)
    ensures Before(a, c)
    decreases |a|
  {
    if a == "" {
    } else if a[0] == b[0] && b[0] == c[0] {
      BeforeIsTransitive(a[1..], b[1..], c[1..]);
    } else {
    }
  }

  // ---------------------------------------------------------------- what the texts mean

  lemma {:induction false} ComparisonsMean(value: string, text: string)
    ensures Holds(AtMost(value), text) <==> text == value || Before(text, value)
    ensures Holds(AtLeast(value), text) <==> text == value || Before(value, text)
  {
    BeforeIsTotal(value, text);
    if Before(value, text) {
      NotBothBefore(value, text);
    }
    if Before(text, value) {
      NotBothBefore(text, value);
    }
  }

  lemma {:induction false} OperatorsAreRead(value: string)
    requires '%' !in value
    ensures Read("!" + value) == Differs(value)
    ensures Read("<=" + value) == AtMost(value) && Read(">=" + value) == AtLeast(value)
    ensures !StartsWith(value, "=") ==> Read("<" + value) == Under(value) && Read(">" + value) == Over(value)
  {
    assert ("!" + value)[1..] == value && ("<=" + value)[2..] == value && (">=" + value)[2..] == value;
    assert ("<" + value)[1..] == value && (">" + value)[1..] == value;
    var at, more, under, over := "<=" + value, ">=" + value, "<" + value, ">" + value;
    assert at[..2] == "<=" && at[..1] == "<" && at[0] == '<';
    assert more[..2] == ">=" && more[..1] == ">" && more[0] == '>';
    assert under[..1] == "<" && over[..1] == ">";
    assert |under| >= 2 ==> under[..2][1] == value[0] && over[..2][1] == value[0];
    assert value != "" ==> value[..1] == [value[0]];
  }

  /** An operator in front of a value; what follows `<` or `>` is the value unless that begins with an equals sign.
      Values are compared as texts, character by character. */
  lemma {:induction false} OperatorsMean(value: string, text: string)
    requires '%' !in value
    ensures Holds(Read("!" + value), text) <==> text != value
    ensures Holds(Read("<=" + value), text) <==> text == value || Before(text, value)
    ensures Holds(Read(">=" + value), text) <==> text == value || Before(value, text)
    ensures !StartsWith(value, "=") ==> (Holds(Read("<" + value), text) <==> Before(text, value))
    ensures !StartsWith(value, "=") ==> (Holds(Read(">" + value), text) <==> Before(value, text))
  {
    OperatorsAreRead(value);
    ComparisonsMean(value, text);
  }

  /** Spaces, as many as wanted. */
  predicate Blank(text: string) {
    forall i :: 0 <= i < |text| ==> text[i] == ' '
  }

  /** Blanks around a text are taken away, and nothing else. */
  lemma {:induction false} BlanksAreStripped(before: string, text: string, after: string)
    requires Blank(before) && Blank(after) && (text != "" ==> text[0] != ' ' && text[|text| - 1] != ' ')
    ensures Stripped(before + text + after) == text
    decreases |before| + |after|
  {
    var all := before + text + after;
    if before != "" {
      assert all[0] == before[0] && all[1..] == before[1..] + text + after;
      BlanksAreStripped(before[1..], text, after);
    } else if after != "" {
      var last := |after| - 1;
      assert all[|all| - 1] == after[last] && all[..|all| - 1] == before + text + after[..last];
      BlanksAreStripped(before, text, after[..last]);
      if text == "" {
        assert all == after && all[1..] == after[1..] == before + text + after[1..];
        BlanksAreStripped(before, text, after[1..]);
      }
    } else {
      assert all == text;
    }
  }

  lemma {:induction false} BareText(text: string)
    requires ' ' !in text
    ensures Stripped(text) == text
  {
    assert "" + text + "" == text;
    BlanksAreStripped("", text, "");
  }

  lemma {:induction false} RangeWords(both: string)
    requires ' ' !in both
    ensures Split("BETWEEN " + both, ' ') == ["BETWEEN", both] && Join(["BETWEEN", both][1..], ' ') == both
  {
    assert "BETWEEN " + both == "BETWEEN" + [' '] + both;
    SplitAtFirst("BETWEEN", both, ' ');
    SplitWithout(both, ' ');
    assert ["BETWEEN", both][1..] == [both];
  }

  lemma {:induction false} RangeParts(low: string, high: string)
    requires ' ' !in low && ' ' !in high && ',' !in low && ',' !in high
    ensures Split(Stripped(low + "," + high), ',') == [low, high]
  {
    BareText(low + "," + high);
    assert low + "," + high == low + [','] + high;
    SplitAtFirst(low, high, ',');
    SplitWithout(high, ',');
  }

  lemma {:induction false} RangeBounds(low: string, high: string)
    requires ' ' !in low && ' ' !in high && ',' !in low && ',' !in high
    ensures Bounds("BETWEEN " + (low + "," + high)) == Within(low, high)
  {
    RangeWords(low + "," + high);
    RangeParts(low, high);
    BareText(low);
    BareText(high);
  }

  lemma {:induction false} RangeIsRead(both: string)
    requires '%' !in both
    ensures Read("BETWEEN " + both) == Bounds("BETWEEN " + both)
  {
    var value := "BETWEEN " + both;
    assert value[..7] == "BETWEEN" && value[0] == 'B';
    assert value[..1] == "B" && value[..2] == "BE";
  }

  /** A range has both its bounds among its values. */
  lemma {:induction false} RangesMean(low: string, high: string, text: string)
    requires ' ' !in low && ' ' !in high && ',' !in low && ',' !in high && '%' !in low && '%' !in high
    ensures Holds(Read("BETWEEN " + (low + "," + high)), text) <==>
            (text == low || Before(low, text)) && (text == high || Before(text, high))
  {
    RangeIsRead(low + "," + high);
    RangeBounds(low, high);
    ComparisonsMean(low, text);
    ComparisonsMean(high, text);
  }

  // ---------------------------------------------------------------- what the text of a query finds

  /** What remains of a name's text behind some dot: unescaped it keeps the limits of names, and its first label
      has at most 63 characters before an escape. */
  ghost predicate QueryText(text: string) {
    && text != "" && text[|text| - 1] == '.' && ' ' !in text
    && (|text| >= 64 ==> '.' in text[..64] || '\\' in text[..63])
    && ('\\' !in text ==> |text| <= 254 && forall k: nat :: k + 64 <= |text| ==> DotWithin(text, k))
  }

  function Filled(pattern: string, c: char): (r: string)
    ensures |r| == |pattern|
  {
    seq(|pattern|, i requires 0 <= i < |pattern| => if pattern[i] == '%' then c else pattern[i])
  }

  function Row(c: char, n: nat): (r: string)
    ensures |r| == n && forall i :: 0 <= i < n ==> r[i] == c
  {
    if n == 0 then "" else [c] + Row(c, n - 1)
  }

  /** The smallest zone name. */
  const LEAST: string := "0" + Row('-', 61) + "0."

  /** No zone name whose first label has fewer characters is greater. */
  const GREATEST: string := Row('z', 63) + "."

  /** The text is read as more than a value, and zones can be found by it. */
  ghost predicate FindsOthers(text: string) {
    match NameClause(text)
    case Likes(_) => !Wildcard(text) && ZoneName(Filled(text, 'x'))
    case Differs(_) => true
    case AtMost(bound) => Before(LEAST, bound)
    case Under(bound) => Before(LEAST, bound)
    case AtLeast(bound) => Before(bound, GREATEST)
    case Over(bound) => Before(bound, GREATEST)
    case Within(_, _) => false
    case Equals(_) => false
    case Malformed => false
  }

  /** Two different zone names of the same length are found. */
  ghost predicate FindsTwo(text: string, a: string, b: string) {
    && ZoneName(a) && ZoneName(b) && |a| == |b| && a != b
    && Hits(text, a) && Hits(text, b)
  }

  // patterns

  lemma {:induction false} FilledMatches(pattern: string, c: char)
    ensures Like(pattern, Filled(pattern, c))
    decreases |pattern|
  {
    if pattern == "" {
    } else {
      FilledMatches(pattern[1..], c);
      assert Filled(pattern, c)[1..] == Filled(pattern[1..], c);
    }
  }

  lemma {:induction false} PatternChar(pattern: string, text: string, i: nat)
    requires Like(pattern, text) && i < |pattern|
    ensures pattern[i] in {'%', '_'} || pattern[i] in text
    decreases |pattern|
  {
    if i == 0 {
    } else if pattern[0] == '%' {
      var k :| 0 <= k <= |text| && Like(pattern[1..], text[k..]);
      PatternChar(pattern[1..], text[k..], i - 1);
    } else {
      PatternChar(pattern[1..], text[1..], i - 1);
    }
  }

  /** Two neighbours that are no wildcards are neighbours in every text that matches. */
  lemma {:induction false} PatternPair(pattern: string, text: string, i: nat) returns (k: nat)
    requires Like(pattern, text) && i + 1 < |pattern|
    requires pattern[i] !in {'%', '_'} && pattern[i + 1] !in {'%', '_'}
    ensures k + 1 < |text| && text[k] == pattern[i] && text[k + 1] == pattern[i + 1]
    decreases |pattern|
  {
    if pattern[0] == '%' {
      var from :| 0 <= from <= |text| && Like(pattern[1..], text[from..]);
      k := PatternPair(pattern[1..], text[from..], i - 1);
      k := k + from;
    } else if i == 0 {
      assert Like(pattern[1..], text[1..]) && pattern[1..][0] == pattern[1];
      k := 0;
    } else {
      k := PatternPair(pattern[1..], text[1..], i - 1);
      k := k + 1;
    }
  }

  lemma {:induction false} PatternEnd(pattern: string, text: string)
    requires Like(pattern, text) && pattern != "" && pattern[|pattern| - 1] !in {'%', '_'}
    ensures text != "" && text[|text| - 1] == pattern[|pattern| - 1]
    decreases |pattern|
  {
    if pattern[0] == '%' {
      var k :| 0 <= k <= |text| && Like(pattern[1..], text[k..]);
      var tail := text[k..];
      PatternEnd(pattern[1..], tail);
      assert tail[|tail| - 1] == text[|text| - 1];
    } else if |pattern| == 1 {
      assert text[1..] == "";
    } else {
      var tail := text[1..];
      PatternEnd(pattern[1..], tail);
      assert tail[|tail| - 1] == text[|text| - 1];
    }
  }

  lemma {:induction false} DotsStay(text: string, c: char)
    requires c != '.'
    requires forall k: nat :: k + 64 <= |text| ==> DotWithin(text, k)
    ensures forall k: nat :: k + 64 <= |text| ==> DotWithin(Filled(text, c), k)
  {
    var name := Filled(text, c);
    forall k: nat | k + 64 <= |text| ensures DotWithin(name, k) {
      assert DotWithin(text, k);
      var d :| 0 <= d < 64 && text[k..k + 64][d] == '.';
      assert name[k..k + 64][d] == '.';
    }
  }

  /** If a pattern finds a zone at all, it has the characters and dots of a zone name. */
  lemma {:induction false} PatternOfZone(text: string, zone: string)
    requires QueryText(text) && ZoneName(zone) && Like(text, zone)
    ensures ZoneName(Filled(text, 'x'))
  {
    var name := Filled(text, 'x');
    forall i | 0 <= i < |text| ensures (NameChar(name[i]) || name[i] == '.') && text[i] != '\\' {
      PatternChar(text, zone, i);
    }
    forall i, j | 0 <= i < j < |name| && j == i + 1 && name[i] in {'.', '-'} && name[j] in {'.', '-'}
      ensures name[i] == name[j] == '-'
    {
      var k := PatternPair(text, zone, i);
    }
    DotsStay(text, 'x');
  }

  lemma {:induction false} SameShape(a: string, b: string)
    requires ZoneName(a) && |a| == |b|
    requires forall i :: 0 <= i < |a| ==> b[i] == a[i] || (a[i] == 'x' && b[i] == 'y')
    ensures ZoneName(b)
  {
    forall k: nat | k + 64 <= |b| ensures DotWithin(b, k) {
      assert DotWithin(a, k);
      var d :| 0 <= d < 64 && a[k..k + 64][d] == '.';
      assert b[k..k + 64][d] == '.';
    }
    assert Dotted(b);
  }

  lemma {:induction false} PatternFindsTwo(text: string)
    requires NameClause(text).Likes? && FindsOthers(text)
    ensures FindsTwo(text, Filled(text, 'x'), Filled(text, 'y'))
  {
    var a, b := Filled(text, 'x'), Filled(text, 'y');
    FilledMatches(text, 'x');
    FilledMatches(text, 'y');
    SameShape(a, b);
    var i :| 0 <= i < |text| && text[i] == '%';
    assert a[i] != b[i];
  }

  // comparisons

  /** A dot or an escape within what is left of a first label behind an operator. */
  predicate Breaks(bound: string, i: nat) {
    i < |bound| && i <= 62 && (bound[i] == '.' || (bound[i] == '\\' && i <= 61))
  }

  lemma {:induction false} LabelBreaks(text: string, start: nat) returns (i: nat)
    requires QueryText(text) && 1 <= start <= 2 && start < |text|
    requires '.' !in text[..start] && '\\' !in text[..start]
    ensures Breaks(text[start..], i)
  {
    assert forall k :: 0 <= k < start ==> text[k] == text[..start][k];
    var k: nat;
    if |text| < 64 {
      k := |text| - 1;
    } else if '.' in text[..64] {
      k :| 0 <= k < 64 && text[..64][k] == '.';
    } else {
      k :| 0 <= k < 63 && text[..63][k] == '\\';
    }
    i := k - start;
  }

  lemma {:induction false} FirstDot(zone: string) returns (i: nat)
    requires ZoneName(zone)
    ensures i < |zone| && i <= 63 && zone[i] == '.'
  {
    if |zone| < 64 {
      i := |zone| - 1;
    } else {
      assert DotWithin(zone, 0);
      i :| 0 <= i < 64 && zone[0..64][i] == '.';
    }
  }

  lemma {:induction false} LeastIsLeast(zone: string)
    requires ZoneName(zone)
    ensures zone == LEAST || Before(LEAST, zone)
  {
    var i := FirstDot(zone);
    assert |zone| >= 63 ==> !(zone[61] == '-' && zone[62] == '.');
    assert |zone| >= 64 ==> !(zone[62] == '-' && zone[63] == '.');
    BeforeIsTotal(zone, LEAST);
    if Before(zone, LEAST) {
      var d := FirstDifference(zone, LEAST);
    }
  }

  lemma {:induction false} FewCharacters(name: string)
    requires |name| <= 64 && name != "" && name[|name| - 1] == '.'
    ensures forall k: nat :: k + 64 <= |name| ==> DotWithin(name, k)
  {
    assert |name| == 64 ==> name[0..64] == name;
  }

  lemma {:induction false} SmallName(d: nat, c: char)
    requires d <= 61 && c in {'x', 'y'}
    ensures ZoneName(LEAST[..d + 1] + [c, '.'])
  {
    var name := LEAST[..d + 1] + [c, '.'];
    assert |name| == d + 3 && name[0] == '0' && name[d + 1] == c && name[d + 2] == '.';
    assert forall k :: 1 <= k <= d ==> name[k] == '-';
    FewCharacters(name);
  }

  /** Two zone names before a bound that has one before it. */
  lemma {:induction false} SmallerTwo(bound: string, i: nat) returns (a: string, b: string)
    requires Breaks(bound, i) && Before(LEAST, bound)
    ensures ZoneName(a) && ZoneName(b) && |a| == |b| && a != b
    ensures Before(a, bound) && !Before(bound, a) && Before(b, bound) && !Before(bound, b)
  {
    var d := FirstDifference(LEAST, bound);
    a, b := LEAST[..d + 1] + ['x', '.'], LEAST[..d + 1] + ['y', '.'];
    SmallName(d, 'x');
    SmallName(d, 'y');
    assert a[d + 1] != b[d + 1];
    DifferenceDecides(a, bound, d);
    DifferenceDecides(b, bound, d);
  }

  lemma {:induction false} SmallerZone(bound: string, i: nat, zone: string)
    requires Breaks(bound, i) && ZoneName(zone) && !Before(bound, zone)
    ensures Before(LEAST, bound)
  {
    LeastIsLeast(zone);
    BeforeIsTotal(zone, bound);
    assert bound != LEAST;
    if zone != bound && zone != LEAST {
      BeforeIsTransitive(LEAST, zone, bound);
    }
  }

  lemma {:induction false} GreatName(d: nat, c: char)
    requires d <= 62 && c in {'x', 'y'}
    ensures ZoneName(GREATEST[..d + 1] + ['.', c, '.'])
  {
    var name := GREATEST[..d + 1] + ['.', c, '.'];
    assert |name| == d + 4 && name[d + 1] == '.' && name[d + 2] == c && name[d + 3] == '.';
    assert forall k :: 0 <= k <= d ==> name[k] == 'z';
    forall k: nat | k + 64 <= |name| ensures DotWithin(name, k) {
      assert name[k..k + 64][d + 1 - k] == '.';
    }
  }

  /** Two zone names behind a bound. */
  lemma {:induction false} GreaterTwo(bound: string, i: nat) returns (a: string, b: string)
    requires Breaks(bound, i) && Before(bound, GREATEST)
    ensures ZoneName(a) && ZoneName(b) && |a| == |b| && a != b
    ensures Before(bound, a) && !Before(a, bound) && Before(bound, b) && !Before(b, bound)
  {
    var d := FirstDifference(bound, GREATEST);
    a, b := GREATEST[..d + 1] + ['.', 'x', '.'], GREATEST[..d + 1] + ['.', 'y', '.'];
    GreatName(d, 'x');
    GreatName(d, 'y');
    assert a[d + 2] != b[d + 2];
    DifferenceDecides(bound, a, d);
    DifferenceDecides(bound, b, d);
  }

  /** The first character that is no z. */
  lemma {:induction false} FirstOther(text: string, i: nat) returns (e: nat)
    requires i < |text| && text[i] != 'z'
    ensures e <= i && text[e] != 'z' && forall k :: 0 <= k < e ==> text[k] == 'z'
    decreases i
  {
    if k :| 0 <= k < i && text[k] != 'z' {
      e := FirstOther(text, k);
    } else {
      e := i;
    }
  }

  lemma {:induction false} GreaterZone(bound: string, i: nat, zone: string)
    requires Breaks(bound, i) && ZoneName(zone) && !Before(zone, bound)
    ensures Before(bound, GREATEST)
  {
    var e := FirstOther(bound, i);
    BeforeIsTotal(zone, bound);
    if zone != bound {
      var d := FirstDifference(bound, zone);
      assert bound[e] < 'z';
    }
    DifferenceDecides(bound, GREATEST, e);
  }

  lemma {:induction false} OthersThan(text: string) returns (a: string, b: string)
    ensures ZoneName(a) && ZoneName(b) && |a| == |b| && a != b && a != text && b != text
  {
    a := if text == "x." then "z." else "x.";
    b := if text == "y." then "z." else "y.";
  }

  // all readings

  /** Read backwards the text begins with its final dot. */
  lemma {:induction false} WildcardClause(text: string)
    requires QueryText(text) && Wildcard(text)
    ensures NameClause(text) == if '%' in Reverse(text) then Likes(Reverse(text)) else Equals(Reverse(text))
    ensures Reverse(text)[|text| - 1] == '*'
  {
    ReverseEnds(text);
  }

  lemma {:induction false} BoundBreaks(text: string) returns (i: nat)
    requires QueryText(text)
    requires var c := Read(text); c.AtMost? || c.Under? || c.AtLeast? || c.Over?
    ensures Breaks(Read(text).bound, i)
  {
    i := LabelBreaks(text, |text| - |Read(text).bound|);
  }

  /** A text that finds zones as more than a value finds two zone names of the same length. */
  lemma {:induction false} FindingTwo(text: string) returns (a: string, b: string)
    requires QueryText(text) && FindsOthers(text)
    ensures FindsTwo(text, a, b)
  {
    if Wildcard(text) {
      WildcardClause(text);
    }
    match Read(text)
    case Likes(_) =>
      a, b := Filled(text, 'x'), Filled(text, 'y');
      PatternFindsTwo(text);
    case Differs(other) =>
      a, b := OthersThan(other);
    case AtMost(bound) =>
      var i := BoundBreaks(text);
      a, b := SmallerTwo(bound, i);
    case Under(bound) =>
      var i := BoundBreaks(text);
      a, b := SmallerTwo(bound, i);
    case AtLeast(bound) =>
      var i := BoundBreaks(text);
      a, b := GreaterTwo(bound, i);
    case Over(bound) =>
      var i := BoundBreaks(text);
      a, b := GreaterTwo(bound, i);
  }

  lemma {:induction false} FoundMeansFinds(text: string, zone: string)
    requires QueryText(text) && !Plain(text) && ZoneName(zone) && Hits(text, zone)
    ensures FindsOthers(text)
  {
    if Wildcard(text) {
      WildcardClause(text);
      ReverseEnds(zone);
      PatternEnd(Reverse(text), Reverse(zone));
    } else {
      match Read(text)
      case Likes(_) => PatternOfZone(text, zone);
      case Differs(_) =>
      case AtMost(bound) =>
        var i := BoundBreaks(text);
        SmallerZone(bound, i, zone);
      case Under(bound) =>
        var i := BoundBreaks(text);
        NotBothBefore(zone, bound);
        SmallerZone(bound, i, zone);
      case AtLeast(bound) =>
        var i := BoundBreaks(text);
        GreaterZone(bound, i, zone);
      case Over(bound) =>
        var i := BoundBreaks(text);
        NotBothBefore(bound, zone);
        GreaterZone(bound, i, zone);
      case Within(_, _) => RangesWithoutSpaces(text);
    }
  }

  /** Exactly these texts find zones that do not bear the text as their name. */
  lemma {:induction false} FindsOthersExactly(text: string)
    requires QueryText(text) && !Plain(text)
    ensures FindsOthers(text) <==> exists zone :: ZoneName(zone) && Hits(text, zone)
  {
    if FindsOthers(text) {
      var a, b := FindingTwo(text);
    }
    if zone :| ZoneName(zone) && Hits(text, zone) {
      FoundMeansFinds(text, zone);
    }
  }
}
