/** Mail addresses in SOA records: the at-sign becomes a dot and the dots before it are escaped. */
module SoaMailbox {
  import opened DnsNames
  import opened Sequences
  import opened Wrappers

  // ---------------------------------------------------------------- which addresses are accepted

  function Replace(s: string, from: char, to: string): string {
    if s == "" then "" else (if s[0] == from then to else [s[0]]) + Replace(s[1..], from, to)
  }

  function Count(s: string, c: char): nat {
    if s == "" then 0 else (if s[0] == c then 1 else 0) + Count(s[1..], c)
  }

  /** With its at-sign turned into a dot and one more dot behind, the address is a zone name. */
  ghost predicate AcceptedEmail(email: string) {
    Count(email, '@') == 1 && ZoneName(Replace(email, '@', ".") + ".")
  }

  // ---------------------------------------------------------------- encoding

  function Escape(local: string): string {
    Replace(local, '.', "\\.")
  }

  /** Without an at-sign there is no address to build. */
  function SoaAddress(email: string): Option<string> {
    match IndexOf(email, '@')
    case Some(at) => Some(Escape(email[..at]) + "." + email[at + 1..])
    case None => None
  }

  // ---------------------------------------------------------------- decoding

  function JoinAll(parts: seq<string>): string {
    if parts == [] then "" else Join(parts, '.')
  }

  predicate Escaping(part: string) {
    part != "" && part[|part| - 1] == '\\'
  }

  /** Mailbox and domain: parts that end in a backslash belong to the mailbox, and so does the next one. */
  function FromParts(parts: seq<string>): (string, string) {
    if parts == [] then ("", "")
    else if Escaping(parts[0]) then
      var rest := FromParts(parts[1..]);
      (parts[0][..|parts[0]| - 1] + "." + rest.0, rest.1)
    else (parts[0], JoinAll(parts[1..]))
  }

  function Normal(mailbox: string, domain: string): string {
    if domain != "" then mailbox + "@" + domain else mailbox
  }

  function Decoded(soa: string): string {
    var parsed := FromParts(Labels(soa));
    Normal(parsed.0, parsed.1)
  }

  method SoaToNormal(soa: string) returns (r: string)
    ensures r == Decoded(soa)
  {
    var mbox, domain := "", "";
    var parts := Labels(soa);
    var i := 0;
    assert parts[0..] == parts;
    while i < |parts|
      invariant i <= |parts| && domain == ""
      invariant FromParts(parts).0 == mbox + FromParts(parts[i..]).0
      invariant FromParts(parts).1 == FromParts(parts[i..]).1
    {
      var part := parts[i];
      assert parts[i..][1..] == parts[i + 1..];
      if Escaping(part) {
        mbox := mbox + part[..|part| - 1] + ".";
      } else {
        mbox := mbox + part;
        domain := JoinAll(parts[i + 1..]);
        break;
      }
      i := i + 1;
    }
    if domain != "" {
      r := mbox + "@" + domain;
    } else {
      r := mbox;
    }
  }

  // ---------------------------------------------------------------- there and back

  function EscapedParts(parts: seq<string>): (r: seq<string>)
    requires parts != []
    ensures |r| == |parts|
  {
    if |parts| == 1 then parts else [parts[0] + "\\"] + EscapedParts(parts[1..])
  }

  lemma {:induction false} SplitAfterChar(c: char, text: string)
    requires c != '.'
    ensures Labels([c] + text) == [[c] + Labels(text)[0]] + Labels(text)[1..]
  {
    assert ([c] + text)[1..] == text;
  }

  lemma {:induction false} EscapedAfterChar(c: char, parts: seq<string>, more: seq<string>)
    requires parts != []
    ensures var all := EscapedParts(parts) + more;
            EscapedParts([[c] + parts[0]] + parts[1..]) + more == [[c] + all[0]] + all[1..]
  {
    var longer := [[c] + parts[0]] + parts[1..];
    assert longer[1..] == parts[1..];
    if |parts| > 1 {
      assert ([c] + parts[0]) + "\\" == [c] + (parts[0] + "\\");
    }
  }

  lemma {:induction false} EscapedAfterDot(parts: seq<string>, more: seq<string>)
    requires parts != []
    ensures EscapedParts([""] + parts) + more == ["\\"] + (EscapedParts(parts) + more)
  {
    assert ([""] + parts)[1..] == parts;
    assert "" + "\\" == "\\";
  }

  lemma {:induction false} PartsOfAddress(local: string, domain: string)
    ensures Labels(Escape(local) + "." + domain) == EscapedParts(Labels(local)) + Labels(domain)
  {
    if local == "" {
      assert (Escape(local) + "." + domain)[1..] == domain;
    } else {
      var rest := Escape(local[1..]) + "." + domain;
      var parts := Labels(local[1..]);
      PartsOfAddress(local[1..], domain);
      if local[0] == '.' {
        assert Escape(local) + "." + domain == "\\" + ['.'] + rest;
        SplitAtFirst("\\", rest, '.');
        EscapedAfterDot(parts, Labels(domain));
      } else {
        assert Escape(local) + "." + domain == [local[0]] + rest;
        SplitAfterChar(local[0], rest);
        EscapedAfterChar(local[0], parts, Labels(domain));
      }
    }
  }

  lemma {:induction false} PartsGiveBack(parts: seq<string>, domain: seq<string>)
    requires parts != [] && forall i :: 0 <= i < |parts| ==> '\\' !in parts[i]
    ensures FromParts(EscapedParts(parts) + domain) == (Join(parts, '.'), JoinAll(domain))
  {
    var all := EscapedParts(parts) + domain;
    if |parts| == 1 {
      assert all[1..] == domain;
    } else {
      PartsGiveBack(parts[1..], domain);
      assert all[0] == parts[0] + "\\" && all[1..] == EscapedParts(parts[1..]) + domain;
      assert all[0][..|all[0]| - 1] == parts[0];
    }
  }

  lemma {:induction false} PartsAreFromText(s: string, c: char)
    requires c !in s
    ensures forall i :: 0 <= i < |Labels(s)| ==> c !in Labels(s)[i]
  {
    if s == "" {
    } else {
      var rest := Labels(s[1..]);
      PartsAreFromText(s[1..], c);
      assert c !in [s[0]] + rest[0];
    }
  }

  lemma {:induction false} LocalAndDomainSurvive(local: string, domain: string)
    requires '\\' !in local
    ensures FromParts(Labels(Escape(local) + "." + domain)) == (local, domain)
  {
    var mine, others := Labels(local), Labels(domain);
    PartsOfAddress(local, domain);
    PartsAreFromText(local, '\\');
    PartsGiveBack(mine, others);
    JoinOfSplit(local, '.');
    JoinOfSplit(domain, '.');
  }

  lemma {:induction false} CutAt(email: string, at: nat)
    requires at < |email| && email[at] == '@'
    ensures email == email[..at] + "@" + email[at + 1..]
  {
  }

  /** Any address without a backslash in front of the at-sign and with something behind it survives. */
  lemma {:induction false} RoundTrip(email: string, at: nat)
    requires IndexOf(email, '@') == Some(at)
    requires '\\' !in email[..at] && at + 1 < |email|
    ensures SoaAddress(email).Some?
    ensures Decoded(SoaAddress(email).value) == email
  {
    var local, domain := email[..at], email[at + 1..];
    LocalAndDomainSurvive(local, domain);
    CutAt(email, at);
  }

  /** A mailbox with nothing behind it is decoded without an at-sign. */
  lemma {:induction false} EmptyDomainIsLeftOut(local: string)
    requires '\\' !in local
    ensures Decoded(Escape(local) + ".") == local
  {
    LocalAndDomainSurvive(local, "");
    assert Escape(local) + "." + "" == Escape(local) + ".";
  }

  lemma {:induction false} ReplaceKeepsPlaces(s: string, from: char, c: char)
    ensures |Replace(s, from, [c])| == |s|
    ensures forall i :: 0 <= i < |s| ==> Replace(s, from, [c])[i] == if s[i] == from then c else s[i]
  {
    if s == "" {
    } else {
      ReplaceKeepsPlaces(s[1..], from, c);
    }
  }

  lemma {:induction false} CountedIsPresent(s: string, c: char)
    requires Count(s, c) > 0
    ensures c in s
  {
    if s[0] == c {
    } else {
      CountedIsPresent(s[1..], c);
    }
  }

  lemma {:induction false} CountOfSum(a: string, b: string, c: char)
    ensures Count(a + b, c) == Count(a, c) + Count(b, c)
  {
    if a == "" {
      assert a + b == b;
    } else {
      CountOfSum(a[1..], b, c);
      assert (a + b)[1..] == a[1..] + b;
    }
  }

  lemma {:induction false} PresentIsCounted(s: string, c: char)
    requires c in s
    ensures Count(s, c) > 0
  {
    if s[0] == c {
    } else {
      PresentIsCounted(s[1..], c);
    }
  }

  lemma {:induction false} PartsAreThere(local: string, domain: string)
    requires ZoneName(local + "." + domain + ".")
    ensures local != "" && domain != ""
  {
    var name := local + "." + domain + ".";
    assert name[|local|] == '.' && name[|name| - 1] == '.';
  }

  /** An accepted address in its two parts, and the name it is checked as. */
  lemma {:induction false} AcceptedParts(email: string) returns (at: nat)
    requires AcceptedEmail(email)
    ensures at < |email| && IndexOf(email, '@') == Some(at)
    ensures var local, domain := email[..at], email[at + 1..];
      local != "" && domain != "" && ZoneName(local + "." + domain + ".")
  {
    CountedIsPresent(email, '@');
    at := IndexOf(email, '@').value;
    var local, domain := email[..at], email[at + 1..];
    CutAt(email, at);
    CountOfSum(local + "@", domain, '@');
    CountOfSum(local, "@", '@');
    assert '@' !in domain by {
      if '@' in domain {
        PresentIsCounted(domain, '@');
      }
    }
    ReplaceKeepsPlaces(email, '@', '.');
    assert Replace(email, '@', ".") == local + "." + domain;
    PartsAreThere(local, domain);
  }

  lemma {:induction false} AbsentIsNotCounted(s: string, c: char)
    requires c !in s
    ensures Count(s, c) == 0
  {
    if s == "" {
    } else {
      AbsentIsNotCounted(s[1..], c);
    }
  }

  /** The API accepts an address exactly when it is a local part and a domain around its one at-sign and the two,
      with dots between and behind them, make a zone name. */
  lemma {:induction false} EmailsAreAcceptedExactly(local: string, domain: string)
    requires '@' !in local && '@' !in domain
    ensures AcceptedEmail(local + "@" + domain) <==> ZoneName(local + "." + domain + ".")
  {
    var email := local + "@" + domain;
    AbsentIsNotCounted(local, '@');
    AbsentIsNotCounted(domain, '@');
    CountOfSum(local + "@", domain, '@');
    CountOfSum(local, "@", '@');
    assert Count("@", '@') == 1;
    ReplaceKeepsPlaces(email, '@', '.');
    assert Replace(email, '@', ".") == local + "." + domain;
  }

  /** Every address the API accepts is encoded and comes back unchanged. */
  lemma {:induction false} AcceptedEmailsSurvive(email: string)
    requires AcceptedEmail(email)
    ensures SoaAddress(email).Some?
    ensures Decoded(SoaAddress(email).value) == email
  {
    var at := AcceptedParts(email);
    var name := email[..at] + "." + email[at + 1..] + ".";
    assert forall i :: 0 <= i < at ==> email[i] == name[i];
    RoundTrip(email, at);
  }

  /** No two accepted addresses share an encoding. */
  lemma {:induction false} EncodingIsInjective(a: string, b: string)
    requires AcceptedEmail(a) && AcceptedEmail(b) && SoaAddress(a) == SoaAddress(b)
    ensures a == b
  {
    AcceptedEmailsSurvive(a);
    AcceptedEmailsSurvive(b);
  }

  // ---------------------------------------------------------------- the encoded address as a DNS name

  function Lengthened(c: char, labels: seq<string>): seq<string>
    requires labels != []
  {
    [[c] + labels[0]] + labels[1..]
  }

  /** The labels of a name in a record's text: a backslash makes the next character part of a label (section 5.1
      of RFC 1035). */
  function NameLabels(text: string): (labels: seq<string>)
    ensures labels != []
  {
    if text == "" then [""]
    else if text[0] == '\\' && |text| > 1 then Lengthened(text[1], NameLabels(text[2..]))
    else if text[0] == '.' then [""] + NameLabels(text[1..])
    else Lengthened(text[0], NameLabels(text[1..]))
  }

  /** Bytes on the wire: a length byte before each label. */
  function WireLength(labels: seq<string>): nat {
    if labels == [] then 0 else |labels[0]| + 1 + WireLength(labels[1..])
  }

  /** Section 2.3.4 of RFC 1035: only the root's label is empty, no label has more than 63 bytes, and the name has
      at most 255. */
  predicate LegalName(labels: seq<string>) {
    && labels != [] && labels[|labels| - 1] == ""
    && (forall i :: 0 <= i < |labels| - 1 ==> 1 <= |labels[i]| <= 63)
    && WireLength(labels) <= 255
  }

  lemma {:induction false} UnescapedLabels(text: string)
    requires '\\' !in text
    ensures NameLabels(text) == Labels(text)
  {
    if text == "" {
    } else {
      UnescapedLabels(text[1..]);
    }
  }

  lemma {:induction false} LabelChar(c: char, text: string)
    requires c != '\\'
    ensures NameLabels("\\." + text) == Lengthened('.', NameLabels(text))
    ensures c != '.' ==> NameLabels([c] + text) == Lengthened(c, NameLabels(text))
  {
    assert ("\\." + text)[2..] == text && ([c] + text)[1..] == text;
  }

  lemma {:induction false} LengthenedFirst(local: string, labels: seq<string>)
    requires local != ""
    ensures Lengthened(local[0], [local[1..]] + labels) == [local] + labels
  {
    assert [local[0]] + local[1..] == local;
    assert ([local[1..]] + labels)[1..] == labels;
  }

  lemma {:induction false} EscapedText(local: string, rest: string)
    requires local != ""
    ensures var tail := Escape(local[1..]) + "." + rest;
      Escape(local) + "." + rest == if local[0] == '.' then "\\." + tail else [local[0]] + tail
  {
  }

  /** However many dots it has, the part before the at-sign becomes one label. */
  lemma {:induction false} LocalPartIsOneLabel(local: string, rest: string)
    requires '\\' !in local
    ensures NameLabels(Escape(local) + "." + rest) == [local] + NameLabels(rest)
  {
    if local == "" {
      assert (Escape(local) + "." + rest)[1..] == rest;
    } else {
      EscapedText(local, rest);
      LabelChar(local[0], Escape(local[1..]) + "." + rest);
      LocalPartIsOneLabel(local[1..], rest);
      LengthenedFirst(local, NameLabels(rest));
    }
  }

  lemma {:induction false} WireLengthOfText(text: string)
    ensures WireLength(Labels(text)) == |text| + 1
  {
    if text == "" {
    } else {
      WireLengthOfText(text[1..]);
      var rest := Labels(text[1..]);
      if text[0] == '.' {
        assert ([""] + rest)[1..] == rest;
      } else {
        assert Labels(text)[1..] == rest[1..];
      }
    }
  }

  lemma {:induction false} LevelStart(name: string, i: nat)
    requires ZoneName(name) && i < |Labels(name)| - 1
    ensures ZoneName(Ancestor(name, i))
  {
    AncestorsShrink(name, i, |Labels(name)| - 1);
    if i == 0 {
      assert Labels(name)[0..] == Labels(name);
      JoinOfSplit(name, '.');
    } else {
      AncestorIsAbove(name, i);
      AboveFits(name, Ancestor(name, i));
    }
  }

  lemma {:induction false} ShortLabel(name: string, part: string, rest: string)
    requires ZoneName(name) && name == part + "." + rest && '.' !in part
    ensures 1 <= |part| <= 63
  {
    assert name[|part|] == '.' && forall k :: 0 <= k < |part| ==> part[k] == name[k];
    if |name| >= 64 {
      assert DotWithin(name, 0);
      var d :| 0 <= d < 64 && name[0..64][d] == '.';
      assert name[d] == '.';
    }
  }

  lemma {:induction false} LastLabelIsEmpty(name: string)
    requires name != "" && name[|name| - 1] == '.'
    ensures Labels(name)[|Labels(name)| - 1] == ""
  {
    if |name| == 1 {
      assert Labels(name[1..]) == [""];
    } else {
      LastLabelIsEmpty(name[1..]);
      assert |Labels(name[1..])| > 1 by {
        SplitParts(name[1..], '.');
        JoinOfSplit(name[1..], '.');
      }
    }
  }

  /** The labels of a zone name: the last is empty, the others have between 1 and 63 characters. */
  lemma {:induction false} ZoneLabels(name: string, i: nat)
    requires ZoneName(name) && i < |Labels(name)|
    ensures if i == |Labels(name)| - 1 then Labels(name)[i] == "" else 1 <= |Labels(name)[i]| <= 63
  {
    var parts := Labels(name);
    SplitParts(name, '.');
    if i < |parts| - 1 {
      LevelStart(name, i);
      assert parts[i..][1..] == parts[i + 1..];
      ShortLabel(Ancestor(name, i), parts[i], Ancestor(name, i + 1));
    } else {
      LastLabelIsEmpty(name);
    }
  }

  lemma {:induction false} DomainLabels(local: string, domain: string)
    requires domain != "" && ZoneName(local + "." + domain + ".")
    ensures var labels := Labels(domain + ".");
      && labels[|labels| - 1] == ""
      && forall i :: 0 <= i < |labels| - 1 ==> 1 <= |labels[i]| <= 63
  {
    var name, above := local + "." + domain + ".", domain + ".";
    assert name[|local|] == '.' && name[|local| + 1..] == above;
    AboveFits(name, above);
    var labels := Labels(above);
    ZoneLabels(above, |labels| - 1);
    forall i | 0 <= i < |labels| - 1 ensures 1 <= |labels[i]| <= 63 {
      ZoneLabels(above, i);
    }
  }

  lemma {:induction false} FirstLabelDecides(first: string, labels: seq<string>)
    requires labels != [] && labels[|labels| - 1] == "" && first != "" && |first| + 1 + WireLength(labels) <= 255
    requires forall i :: 0 <= i < |labels| - 1 ==> 1 <= |labels[i]| <= 63
    ensures LegalName([first] + labels) <==> |first| <= 63
  {
    assert ([first] + labels)[1..] == labels;
    assert ([first] + labels)[0] == first;
  }

  /** The labels of the encoded address: the part before the at-sign whole, then those of the domain. */
  lemma {:induction false} MailboxLabels(local: string, domain: string)
    requires ZoneName(local + "." + domain + ".")
    ensures NameLabels(Escape(local) + "." + (domain + ".")) == [local] + Labels(domain + ".")
  {
    var checked := local + "." + domain + ".";
    assert forall i :: 0 <= i < |local| ==> local[i] == checked[i];
    assert '\\' !in local;
    assert '\\' !in domain + "." by {
      assert forall i :: 0 <= i < |domain| + 1 ==> (domain + ".")[i] == checked[|local| + 1 + i];
    }
    LocalPartIsOneLabel(local, domain + ".");
    UnescapedLabels(domain + ".");
  }

  lemma {:induction false} MailboxIsLegal(local: string, domain: string)
    requires local != "" && domain != "" && ZoneName(local + "." + domain + ".")
    ensures LegalName([local] + Labels(domain + ".")) <==> |local| <= 63
  {
    DomainLabels(local, domain);
    WireLengthOfText(domain + ".");
    FirstLabelDecides(local, Labels(domain + "."));
  }

  /** The name in the SOA record is a legal DNS name exactly when the part before the at-sign has
      at most 63 characters: its dots do not divide it, the other limits are kept by every accepted address. */
  lemma {:induction false} MailboxIsLegalExactly(email: string, at: nat)
    requires AcceptedEmail(email) && IndexOf(email, '@') == Some(at)
    ensures var name := SoaAddress(email).value + ".";
      && NameLabels(name) == [email[..at]] + Labels(email[at + 1..] + ".")
      && (LegalName(NameLabels(name)) <==> at <= 63)
  {
    var place := AcceptedParts(email);
    var local, domain := email[..at], email[at + 1..];
    assert SoaAddress(email).value + "." == Escape(local) + "." + (domain + ".");
    MailboxLabels(local, domain);
    MailboxIsLegal(local, domain);
  }
}
