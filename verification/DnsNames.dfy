/** Domain names as text: labels between dots, suffixes, and the SQL pattern that looks for subzones. */
module DnsNames {

  // ---------------------------------------------------------------- splitting at a separator

  function Split(s: string, sep: char): (parts: seq<string>)
    ensures |parts| > 0
  {
    if s == "" then [""]
    else
      var rest := Split(s[1..], sep);
      if s[0] == sep then [""] + rest else [[s[0]] + rest[0]] + rest[1..]
  }

  function Join(parts: seq<string>, sep: char): string
    requires |parts| > 0
  {
    if |parts| == 1 then parts[0] else parts[0] + [sep] + Join(parts[1..], sep)
  }

  lemma {:induction false} JoinOfSplit(s: string, sep: char)
    ensures Join(Split(s, sep), sep) == s
  {
    if s == "" {
    } else {
      JoinOfSplit(s[1..], sep);
      var rest := Split(s[1..], sep);
      if s[0] == sep {
        assert ([""] + rest)[1..] == rest;
      } else {
        assert ([[s[0]] + rest[0]] + rest[1..])[1..] == rest[1..];
      }
    }
  }

  lemma {:induction false} SplitParts(s: string, sep: char)
    ensures forall i :: 0 <= i < |Split(s, sep)| ==> sep !in Split(s, sep)[i]
  {
    if s == "" {
    } else {
      SplitParts(s[1..], sep);
    }
  }

  lemma {:induction false} SplitWithout(s: string, sep: char)
    requires sep !in s
    ensures Split(s, sep) == [s]
  {
    if s == "" {
    } else {
      SplitWithout(s[1..], sep);
      assert s == [s[0]] + s[1..];
    }
  }

  lemma {:induction false} SplitAtFirst(head: string, rest: string, sep: char)
    requires sep !in head
    ensures Split(head + [sep] + rest, sep) == [head] + Split(rest, sep)
  {
    var s := head + [sep] + rest;
    if head == "" {
      assert s[1..] == rest;
    } else {
      SplitAtFirst(head[1..], rest, sep);
      assert s[1..] == head[1..] + [sep] + rest;
      assert head == [head[0]] + head[1..];
    }
  }

  // ---------------------------------------------------------------- names above a name

  /** The child's text is some prefix, a dot, and the parent's text. */
  predicate Below(child: string, parent: string) {
    |child| > |parent| && child[|child| - |parent| - 1] == '.' && child[|child| - |parent|..] == parent
  }

  function Labels(name: string): seq<string> { Split(name, '.') }

  /** The name that remains after the first i labels. */
  function Ancestor(name: string, i: nat): string
    requires i < |Labels(name)|
  {
    Join(Labels(name)[i..], '.')
  }

  /** The name above is not one of those reached by dropping at least `from` and fewer than i labels. */
  ghost predicate NotAmong(name: string, from: nat, i: nat, above: string)
    requires i <= |Labels(name)|
  {
    forall k :: from <= k < i ==> above != Ancestor(name, k)
  }

  lemma {:induction false} AncestorIsAbove(name: string, i: nat)
    requires 1 <= i < |Labels(name)|
    ensures Below(name, Ancestor(name, i))
  {
    var rest := Labels(name[1..]);
    if name[0] == '.' {
      if i == 1 {
        assert Labels(name)[1..] == rest;
        JoinOfSplit(name[1..], '.');
      } else {
        assert Labels(name)[i..] == rest[i - 1..];
        AncestorIsAbove(name[1..], i - 1);
      }
    } else {
      assert Labels(name)[i..] == rest[i..];
      AncestorIsAbove(name[1..], i);
    }
  }

  /** Every name above is reached by dropping labels. */
  lemma {:induction false} AboveIsAncestor(name: string, above: string) returns (i: nat)
    requires Below(name, above)
    ensures 1 <= i < |Labels(name)| && Ancestor(name, i) == above
  {
    var rest := Labels(name[1..]);
    if |name| == |above| + 1 {
      i := 1;
      assert Labels(name)[1..] == rest;
      JoinOfSplit(name[1..], '.');
    } else {
      i := AboveIsAncestor(name[1..], above);
      if name[0] == '.' {
        assert Labels(name)[i + 1..] == rest[i..];
        i := i + 1;
      } else {
        assert Labels(name)[i..] == rest[i..];
      }
    }
  }

  lemma {:induction false} AncestorsShrink(name: string, i: nat, j: nat)
    requires i < j < |Labels(name)|
    ensures |Ancestor(name, j)| < |Ancestor(name, i)|
    decreases j - i
  {
    assert Labels(name)[i..][1..] == Labels(name)[i + 1..];
    if i + 1 == j {
    } else {
      AncestorsShrink(name, i + 1, j);
    }
  }

  lemma {:induction false} BelowIsTransitive(a: string, b: string, c: string)
    requires Below(a, b) && Below(b, c)
    ensures Below(a, c)
  {
    var shift := |a| - |b|;
    assert forall k :: 0 <= k < |b| ==> a[shift..][k] == a[shift + k] == b[k];
    assert a[|a| - |c|..] == b[|b| - |c|..];
  }

  /** Two names above the same name are the same or one is above the other. */
  lemma {:induction false} AboveIsOrdered(name: string, a: string, b: string)
    requires Below(name, a) && Below(name, b) && |b| < |a|
    ensures Below(a, b)
  {
    var shift := |name| - |a|;
    assert forall k :: 0 <= k < |a| ==> name[shift..][k] == name[shift + k] == a[k];
    assert a[|a| - |b|..] == name[|name| - |b|..];
  }

  // ---------------------------------------------------------------- well-formed names

  predicate NameChar(c: char) {
    'a' <= c <= 'z' || 'A' <= c <= 'Z' || '0' <= c <= '9' || c == '_' || c == '-'
  }

  /** Non-empty labels of name characters, each followed by a dot. */
  ghost predicate Dotted(name: string) {
    && name != "" && name[|name| - 1] == '.'
    && (forall i :: 0 <= i < |name| ==> NameChar(name[i]) || name[i] == '.')
    && name[0] != '.'
    && (forall i, j :: 0 <= i < j < |name| && j == i + 1 ==> name[i] != '.' || name[j] != '.')
  }

  predicate DotWithin(name: string, k: nat)
    requires k + 64 <= |name|
  {
    '.' in name[k..k + 64]
  }

  /** At most 63 characters stand before each dot, neither the first nor the last of them a hyphen. */
  ghost predicate LabelsFit(name: string) {
    && (forall k: nat :: k + 64 <= |name| ==> DotWithin(name, k))
    && (name != "" ==> name[0] != '-')
    && (forall i, j :: 0 <= i < j < |name| && j == i + 1 ==>
          !(name[i] == '.' && name[j] == '-') && !(name[i] == '-' && name[j] == '.'))
  }

  /** The names the API accepts. */
  ghost predicate ZoneName(name: string) {
    Dotted(name) && |name| <= 254 && LabelsFit(name)
  }

  lemma {:induction false} BelowPrefixed(name: string, above: string)
    requires Below("x." + name, above)
    ensures above == name || Below(name, above)
  {
    var child := "x." + name;
    assert forall k :: 2 <= k < |child| ==> child[k] == name[k - 2];
    assert |above| <= |name|;
    assert child[|child| - |above|..] == name[|name| - |above|..];
  }

  lemma {:induction false} PrefixedFits(name: string)
    requires ZoneName(name) && |name| <= 252
    ensures ZoneName("x." + name)
  {
    var child := "x." + name;
    assert child[0] == 'x' && child[1] == '.' && forall k :: 2 <= k < |child| ==> child[k] == name[k - 2];
    forall k: nat | k + 64 <= |child| ensures DotWithin(child, k) {
      if k < 2 {
        assert child[k..k + 64][1 - k] == '.';
      } else {
        assert DotWithin(name, k - 2);
        var d :| 0 <= d < 64 && name[k - 2..k - 2 + 64][d] == '.';
        assert child[k..k + 64][d] == '.';
      }
    }
  }

  lemma {:induction false} WindowsOfTail(name: string, above: string)
    requires (forall k: nat :: k + 64 <= |name| ==> DotWithin(name, k)) && Below(name, above)
    ensures forall k: nat :: k + 64 <= |above| ==> DotWithin(above, k)
  {
    var start := |name| - |above|;
    forall k: nat | k + 64 <= |above| ensures DotWithin(above, k) {
      assert DotWithin(name, start + k);
      var d :| 0 <= d < 64 && name[start + k..start + k + 64][d] == '.';
      assert above[k + d] == name[start..][k + d] == name[start + k + d];
      assert above[k..k + 64][d] == '.';
    }
  }

  /** What stands behind a dot of a zone name is a zone name. */
  lemma {:induction false} AboveFits(name: string, above: string)
    requires ZoneName(name) && Below(name, above) && above != ""
    ensures ZoneName(above)
  {
    var start := |name| - |above|;
    assert forall i :: 0 <= i < |above| ==> above[i] == name[start + i];
    assert name[start - 1] == '.';
    WindowsOfTail(name, above);
  }

  lemma {:induction false} ReplacedFits(name: string, i: nat)
    requires ZoneName(name) && i < |name| && name[i] == '_'
    ensures ZoneName(name[i := 'x'])
  {
    var other := name[i := 'x'];
    forall k: nat | k + 64 <= |other| ensures DotWithin(other, k) {
      assert DotWithin(name, k);
      var d :| 0 <= d < 64 && name[k..k + 64][d] == '.';
      assert other[k..k + 64][d] == '.';
    }
  }

  // ---------------------------------------------------------------- the LIKE operator

  predicate Like(pattern: string, text: string)
    decreases |pattern|
  {
    if pattern == "" then text == ""
    else if pattern[0] == '%' then exists k :: 0 <= k <= |text| && Like(pattern[1..], text[k..])
    else text != "" && (pattern[0] == '_' || pattern[0] == text[0]) && Like(pattern[1..], text[1..])
  }

  predicate Matches(name: string, text: string) {
    |name| == |text| && forall i :: 0 <= i < |name| ==> name[i] == '_' || name[i] == text[i]
  }

  /** The subzones that the pattern for a zone name selects. */
  predicate LikeBelow(child: string, parent: string) {
    |child| > |parent| && child[|child| - |parent| - 1] == '.' && Matches(parent, child[|child| - |parent|..])
  }

  lemma {:induction false} LikeWithoutPercent(pattern: string, text: string)
    requires '%' !in pattern
    ensures Like(pattern, text) <==> Matches(pattern, text)
    decreases |pattern|
  {
    if pattern == "" || text == "" {
    } else {
      LikeWithoutPercent(pattern[1..], text[1..]);
      assert pattern == [pattern[0]] + pattern[1..] && text == [text[0]] + text[1..];
    }
  }

  lemma {:induction false} MatchesAfterDot(name: string, text: string)
    ensures Matches("." + name, text) <==> text != "" && text[0] == '.' && Matches(name, text[1..])
  {
    var dotted := "." + name;
    if text != "" && |text| == |dotted| {
      if Matches(dotted, text) {
        forall i | 0 <= i < |name| ensures name[i] == '_' || name[i] == text[1..][i] {
          assert dotted[i + 1] == name[i];
        }
      } else if text[0] == '.' && Matches(name, text[1..]) {
        forall k | 0 <= k < |dotted| ensures dotted[k] == '_' || dotted[k] == text[k] {
          if k > 0 {
            assert dotted[k] == name[k - 1] && text[k] == text[1..][k - 1];
          }
        }
      }
    }
  }

  /** What the search term "%." + name finds: the underscores of the name are wildcards. */
  lemma {:induction false} SubzonePattern(name: string, text: string)
    requires '%' !in name
    ensures Like("%." + name, text) <==> LikeBelow(text, name)
  {
    var pattern, tail := "%." + name, "." + name;
    assert pattern[1..] == tail;
    forall k | 0 <= k <= |text|
      ensures Like(tail, text[k..]) <==> k == |text| - |name| - 1 && LikeBelow(text, name)
    {
      LikeWithoutPercent(tail, text[k..]);
      MatchesAfterDot(name, text[k..]);
      if k < |text| {
        assert text[k..][1..] == text[k + 1..] && text[k..][0] == text[k];
      }
    }
    assert Like(pattern, text) <==> exists k :: 0 <= k <= |text| && Like(tail, text[k..]);
    if LikeBelow(text, name) {
      assert Like(tail, text[|text| - |name| - 1..]);
    }
  }

  /** The pattern finds exactly the names below a zone name if and only if that name has no underscore. */
  lemma {:induction false} PatternIsExact(name: string)
    requires Dotted(name)
    ensures (forall text :: Dotted(text) ==> (LikeBelow(text, name) <==> Below(text, name))) <==> '_' !in name
  {
    if '_' in name {
      var i :| 0 <= i < |name| && name[i] == '_';
      var other := name[i := 'x'];
      var text := "x." + other;
      assert text[2..] == other;
      assert Dotted(text);
      assert LikeBelow(text, name);
      assert text[2..][i] != name[i] && !Below(text, name);
    } else {
      forall text | Dotted(text) ensures LikeBelow(text, name) <==> Below(text, name) {
        if LikeBelow(text, name) {
          assert text[|text| - |name|..] == name;
        }
      }
    }
  }

  lemma {:induction false} BelowIsLikeBelow(child: string, parent: string)
    requires Below(child, parent)
    ensures LikeBelow(child, parent)
  {
  }

  lemma {:induction false} LikeBelowIsTransitive(a: string, b: string, c: string)
    requires LikeBelow(a, b) && LikeBelow(b, c)
    ensures LikeBelow(a, c)
  {
    var shift := |a| - |b|;
    forall i | 0 <= i < |c| ensures c[i] == '_' || c[i] == a[|a| - |c|..][i] {
      var j := |b| - |c| + i;
      assert b[|b| - |c|..][i] == b[j] && a[shift..][j] == a[shift + j] == a[|a| - |c|..][i];
    }
    var dot := |b| - |c| - 1;
    assert b[dot] == '.' && a[shift..][dot] == a[shift + dot];
  }

  /** A step up costs at least one character and one dot. */
  lemma {:induction false} StepUp(child: string, parent: string)
    requires Dotted(child) && LikeBelow(child, parent)
    ensures |child| >= |parent| + 2
  {
  }
}
