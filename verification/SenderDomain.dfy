/** The two parsers of a sender's domain. The feature extractor reads the bracketed address
    and keys learned rules on its domain; the rule-context builder reads the text after the
    last `@` and is what those rules are matched against. Text is ASCII, so that both
    lower-casings are the same. */
module SenderDomain {
  import opened Common

  function FirstIndex(s: string, c: char): (r: Option<nat>)
    ensures r.None? ==> forall k :: 0 <= k < |s| ==> s[k] != c
    ensures r.Some? ==> r.value < |s| && s[r.value] == c
    ensures r.Some? ==> forall k :: 0 <= k < r.value ==> s[k] != c
  {
    if s == "" then None
    else if s[0] == c then Some(0)
    else match FirstIndex(s[1..], c)
      case None =>
        assert forall k :: 0 < k < |s| ==> s[k] == s[1..][k - 1];
        None
      case Some(i) =>
        assert forall k :: 0 < k < |s| ==> s[k] == s[1..][k - 1];
        Some(i + 1)
  }

  function LastIndex(s: string, c: char): (r: Option<nat>)
    ensures r.None? ==> forall k :: 0 <= k < |s| ==> s[k] != c
    ensures r.Some? ==> r.value < |s| && s[r.value] == c
    ensures r.Some? ==> forall k :: r.value < k < |s| ==> s[k] != c
  {
    if s == "" then None
    else
      var last := |s| - 1;
      if s[last] == c then Some(last) else LastIndex(s[..last], c)
  }

  predicate IsSpace(c: char) {
    c == ' ' || '\t' <= c <= '\r'
  }

  function TrimStart(s: string): string {
    if s != "" && IsSpace(s[0]) then TrimStart(s[1..]) else s
  }

  function TrimEnd(s: string): string {
    if s != "" && IsSpace(s[|s| - 1]) then TrimEnd(s[..|s| - 1]) else s
  }

  function Trim(s: string): string {
    TrimEnd(TrimStart(s))
  }

  /** Drops every copy of `c` at the end. */
  function TrimEndMatches(s: string, c: char): string {
    if s != "" && s[|s| - 1] == c then TrimEndMatches(s[..|s| - 1], c) else s
  }

  function LowerChar(c: char): char {
    if 'A' <= c <= 'Z' then c - 'A' + 'a' else c
  }

  function Lower(s: string): (r: string)
    ensures |r| == |s|
  {
    seq(|s|, i requires 0 <= i < |s| => LowerChar(s[i]))
  }

  /** The lower-cased domain of an address; empty when there is no `@`. */
  function DomainOf(address: string): string {
    match LastIndex(address, '@')
    case None => ""
    case Some(at) => Lower(Trim(address[at + 1..]))
  }

  /** Where the brackets of a non-empty bracketed address stand. */
  function Brackets(from: string): (r: Option<(nat, nat)>)
    ensures r.Some? ==>
      var (l, r) := r.value;
      && l + 1 < r < |from| && from[l] == '<' && from[r] == '>'
      && (forall k :: 0 <= k < l ==> from[k] != '<')
      && (forall k :: r < k < |from| ==> from[k] != '>')
  {
    match (FirstIndex(from, '<'), LastIndex(from, '>'))
    case (Some(l), Some(r)) => if r > l + 1 then Some((l, r)) else None
    case _ => None
  }

  /** The extractor's feature. */
  function ExtractedDomain(from: string): string {
    match Brackets(from)
    case Some(b) => DomainOf(from[b.0 + 1..b.1])
    case None => DomainOf(from)
  }

  /** The rule context's field. */
  function ContextDomain(from: string): Option<string> {
    match LastIndex(from, '@')
    case None => None
    case Some(at) =>
      var domain := Lower(Trim(TrimEndMatches(from[at + 1..], '>')));
      if domain == "" then None else Some(domain)
  }

  ghost predicate ParsersAgree(from: string) {
    ExtractedDomain(from) == match ContextDomain(from) case None => "" case Some(d) => d
  }

  // ---- trimming ---------------------------------------------------------------------------

  lemma {:induction false} TrimStartOfConcat(a: string, b: string)
    ensures TrimStart(a + b) == if TrimStart(a) == "" then TrimStart(b) else TrimStart(a) + b
  {
    if a == "" {
      assert a + b == b;
    } else if IsSpace(a[0]) {
      TrimStartOfConcat(a[1..], b);
      assert (a + b)[1..] == a[1..] + b;
    }
  }

  lemma {:induction false} TrimEndStopsAt(a: string, c: char, b: string)
    requires !IsSpace(c)
    ensures |TrimEnd(a + [c] + b)| >= |a| + 1
    decreases |b|
  {
    var s := a + [c] + b;
    if b != "" && IsSpace(b[|b| - 1]) {
      assert s[..|s| - 1] == a + [c] + b[..|b| - 1];
      TrimEndStopsAt(a, c, b[..|b| - 1]);
    }
  }

  lemma {:induction false} TrimEndShortens(s: string)
    ensures |TrimEnd(s)| <= |s|
  {
    if s != "" && IsSpace(s[|s| - 1]) {
      TrimEndShortens(s[..|s| - 1]);
    }
  }

  /** Text that goes on past a `>` keeps more than the text before it. */
  lemma TrimGrows(a: string, c: char, b: string)
    requires !IsSpace(c)
    ensures |Trim(a + [c] + b)| > |Trim(a)|
  {
    TrimEndShortens(TrimStart(a));
    TrimStartOfConcat(a, [c] + b);
    assert a + [c] + b == a + ([c] + b);
    if TrimStart(a) == "" {
      TrimEndStopsAt("", c, b);
      assert "" + [c] + b == [c] + b;
    } else {
      TrimEndStopsAt(TrimStart(a), c, b);
      assert TrimStart(a) + ([c] + b) == TrimStart(a) + [c] + b;
    }
  }

  lemma TrimEndMatchesOne(s: string, c: char)
    ensures TrimEndMatches(s + [c], c) == TrimEndMatches(s, c)
  {
    assert (s + [c])[..|s|] == s;
  }

  lemma {:induction false} TrimEndMatchesDrops(s: string, c: char)
    ensures var kept := TrimEndMatches(s, c);
            |kept| <= |s| && kept == s[..|kept|] && forall k :: |kept| <= k < |s| ==> s[k] == c
  {
    if s != "" && s[|s| - 1] == c {
      TrimEndMatchesDrops(s[..|s| - 1], c);
    }
  }

  lemma TrimEndMatchesNone(s: string, c: char)
    requires s == "" || s[|s| - 1] != c
    ensures TrimEndMatches(s, c) == s
  {
  }

  /** Brackets at the end of a text make its trimmed form longer. */
  lemma BracketsLengthen(x: string)
    requires x != "" && x[|x| - 1] == '>'
    ensures |Trim(x)| > |Trim(TrimEndMatches(x, '>'))|
  {
    hide Trim;
    hide TrimEndMatches;
    var init := x[..|x| - 1];
    TrimEndMatchesOne(init, '>');
    assert x == init + ['>'];
    TrimEndMatchesDrops(init, '>');
    var kept := TrimEndMatches(init, '>');
    assert x[|kept|] == '>';
    assert x == kept + ['>'] + x[|kept| + 1..];
    TrimGrows(kept, '>', x[|kept| + 1..]);
  }

  /** The brackets at the end of a text matter to its trimmed form exactly when there are
      any. */
  lemma BracketsMatter(x: string)
    ensures Lower(Trim(x)) == Lower(Trim(TrimEndMatches(x, '>'))) <==> !(x != "" && x[|x| - 1] == '>')
  {
    hide Trim;
    hide Lower;
    hide TrimEndMatches;
    if x != "" && x[|x| - 1] == '>' {
      BracketsLengthen(x);
      assert |Lower(Trim(x))| != |Lower(Trim(TrimEndMatches(x, '>')))|;
    } else {
      TrimEndMatchesNone(x, '>');
    }
  }

  lemma VisibleIsKept(s: string, c: char)
    requires c in s && !IsSpace(c)
    ensures Trim(s) != ""
  {
    var i :| 0 <= i < |s| && s[i] == c;
    assert s == s[..i] + [c] + s[i + 1..];
    TrimGrows(s[..i], c, s[i + 1..]);
  }

  // ---- when the parsers agree ---------------------------------------------------------------

  predicate Blank(s: string) {
    forall k :: 0 <= k < |s| ==> IsSpace(s[k])
  }

  /** Letter by letter the same but for case. */
  predicate SpelledAlike(a: string, b: string) {
    |a| == |b| && forall k :: 0 <= k < |a| ==> LowerChar(a[k]) == LowerChar(b[k])
  }

  /** What a `From` value must look like for both parsers to read the same domain: no
      address at all; or no brackets and no stray `>` at the end; or the last `@` inside the
      brackets, which close the value; or, with the last `@` behind the brackets, what follows
      it spelled like what follows the last bracketed `@`, letter case and outer white space
      apart, and blank when there is none. */
  predicate OneDomain(from: string) {
    match LastIndex(from, '@')
    case None => true
    case Some(at) =>
      match Brackets(from)
      case None => from[|from| - 1] != '>'
      case Some(b) =>
        if at < b.0 then false
        else if at < b.1 then b.1 == |from| - 1 && from[b.1 - 1] != '>'
        else
          match LastIndex(from[b.0 + 1..b.1], '@')
          case None => Blank(from[at + 1..])
          case Some(inner) => SpelledAlike(Trim(from[b.0 + inner + 2..b.1]), Trim(from[at + 1..]))
  }

  lemma LastIndexIs(s: string, c: char, i: nat)
    requires i < |s| && s[i] == c && forall k :: i < k < |s| ==> s[k] != c
    ensures LastIndex(s, c) == Some(i)
  {
  }

  lemma LastIndexOfSlice(from: string, at: nat, lo: nat, hi: nat)
    requires LastIndex(from, '@') == Some(at) && lo <= at < hi <= |from|
    ensures DomainOf(from[lo..hi]) == Lower(Trim(from[at + 1..hi]))
  {
    hide LastIndex;
    hide Trim;
    hide Lower;
    var slice := from[lo..hi];
    LastIndexIs(slice, '@', at - lo);
    assert slice[at - lo + 1..] == from[at + 1..hi];
  }

  lemma NoAtBetween(from: string, lo: nat, hi: nat)
    requires lo <= hi <= |from| && forall k :: lo <= k < hi ==> from[k] != '@'
    ensures DomainOf(from[lo..hi]) == ""
  {
    hide LastIndex;
    var slice := from[lo..hi];
    assert forall k :: 0 <= k < |slice| ==> slice[k] == from[lo + k];
  }

  /** The last `@` is inside the brackets. */
  lemma AgreeInsideBrackets(from: string, at: nat, l: nat, r: nat)
    requires LastIndex(from, '@') == Some(at) && Brackets(from) == Some((l, r)) && l < at < r
    ensures ParsersAgree(from) <==> r == |from| - 1 && from[r - 1] != '>'
  {
    hide LastIndex;
    hide Trim;
    hide Lower;
    hide TrimEndMatches;
    hide DomainOf;
    hide Brackets;
    LastIndexOfSlice(from, at, l + 1, r);
    var x, y := from[at + 1..r], from[r + 1..];
    BracketCuts(from, at, l, r);
    DomainEndsAtBracket(x, y);
  }

  /** The closing bracket cuts what follows the `@` in two; the second part has no bracket. */
  lemma BracketCuts(from: string, at: nat, l: nat, r: nat)
    requires LastIndex(from, '@') == Some(at) && Brackets(from) == Some((l, r)) && l < at < r
    ensures var x, y := from[at + 1..r], from[r + 1..];
            && from[at + 1..] == x + ['>'] + y
            && from[r - 1] == (if x == "" then '@' else x[|x| - 1])
            && (y != "" ==> y[|y| - 1] != '>')
  {
    hide LastIndex;
  }

  lemma DomainEndsAtBracket(x: string, y: string)
    requires y != "" ==> y[|y| - 1] != '>'
    ensures Lower(Trim(x)) == Lower(Trim(TrimEndMatches(x + ['>'] + y, '>')))
       <==> y == "" && !(x != "" && x[|x| - 1] == '>')
  {
    hide Trim;
    hide Lower;
    hide TrimEndMatches;
    var d := x + ['>'] + y;
    if y == "" {
      TrimEndMatchesOne(x, '>');
      assert d == x + ['>'];
      BracketsMatter(x);
    } else {
      assert d[|d| - 1] == y[|y| - 1];
      TrimEndMatchesNone(d, '>');
      TrimGrows(x, '>', y);
      assert |Lower(Trim(x))| != |Lower(Trim(d))|;
    }
  }

  /** Every `@` stands before the brackets. */
  lemma DisagreeBeforeBrackets(from: string, at: nat, l: nat, r: nat)
    requires LastIndex(from, '@') == Some(at) && Brackets(from) == Some((l, r)) && at < l
    ensures !ParsersAgree(from)
  {
    hide LastIndex;
    hide Brackets;
    hide Trim;
    hide DomainOf;
    hide TrimEndMatches;
    var d := from[at + 1..];
    NoAtBetween(from, l + 1, r);
    assert d[l - at - 1] == '<';
    TrimEndMatchesDrops(d, '>');
    var kept := TrimEndMatches(d, '>');
    assert kept[l - at - 1] == '<';
    VisibleIsKept(kept, '<');
    assert |Lower(Trim(TrimEndMatches(d, '>')))| > 0;
  }

  lemma {:induction false} TrimOfBlank(s: string)
    ensures Trim(s) == "" <==> Blank(s)
  {
    if Blank(s) {
      AllTrimmed(s);
    } else {
      var k :| 0 <= k < |s| && !IsSpace(s[k]);
      VisibleIsKept(s, s[k]);
    }
  }

  lemma {:induction false} AllTrimmed(s: string)
    requires Blank(s)
    ensures TrimStart(s) == ""
  {
    if s != "" {
      AllTrimmed(s[1..]);
    }
  }

  lemma SpelledAlikeIff(a: string, b: string)
    ensures SpelledAlike(a, b) <==> Lower(a) == Lower(b)
  {
    if Lower(a) == Lower(b) {
      forall k | 0 <= k < |a|
        ensures LowerChar(a[k]) == LowerChar(b[k])
      {
        assert Lower(a)[k] == Lower(b)[k];
      }
    }
  }

  /** When the bracketed text has the domain that follows an `@`. */
  lemma BracketedDomainIs(slice: string, d: string)
    ensures DomainOf(slice) == Lower(Trim(d)) <==>
      match LastIndex(slice, '@')
      case None => Blank(d)
      case Some(inner) => SpelledAlike(Trim(slice[inner + 1..]), Trim(d))
  {
    TrimOfBlank(d);
    var inner := LastIndex(slice, '@');
    if inner.Some? {
      SpelledAlikeIff(Trim(slice[inner.value + 1..]), Trim(d));
    }
    hide LastIndex;
    hide Trim;
    hide Blank;
    hide SpelledAlike;
  }

  /** The last `@` stands after the brackets. */
  lemma AgreeAfterBrackets(from: string, at: nat, l: nat, r: nat)
    requires LastIndex(from, '@') == Some(at) && Brackets(from) == Some((l, r)) && r < at
    ensures ParsersAgree(from) <==> OneDomain(from)
  {
    hide LastIndex;
    hide Brackets;
    hide Trim;
    hide Blank;
    hide SpelledAlike;
    hide Lower;
    var d, slice := from[at + 1..], from[l + 1..r];
    assert d != "" ==> d[|d| - 1] == from[|from| - 1];
    TrimEndMatchesNone(d, '>');
    BracketedDomainIs(slice, d);
    var inner := LastIndex(slice, '@');
    hide DomainOf;
    if inner.Some? {
      assert slice[inner.value + 1..] == from[l + inner.value + 2..r];
    }
  }

  lemma AgreeWithoutBrackets(from: string, at: nat)
    requires LastIndex(from, '@') == Some(at) && Brackets(from).None?
    ensures ParsersAgree(from) <==> from[|from| - 1] != '>'
  {
    hide LastIndex;
    hide Brackets;
    hide Trim;
    hide TrimEndMatches;
    var d := from[at + 1..];
    BracketsMatter(d);
    assert from[|from| - 1] == if d == "" then '@' else d[|d| - 1];
  }

  /** The exact condition under which the two parsers agree. */
  lemma ParsersAgreeIff(from: string)
    ensures ParsersAgree(from) <==> OneDomain(from)
  {
    hide LastIndex;
    hide Trim;
    hide TrimEndMatches;
    match (LastIndex(from, '@'), Brackets(from))
    case (None, None) =>
    case (None, Some(b)) => NoAtBetween(from, b.0 + 1, b.1);
    case (Some(at), None) => AgreeWithoutBrackets(from, at);
    case (Some(at), Some(b)) =>
      if at < b.0 {
        DisagreeBeforeBrackets(from, at, b.0, b.1);
      } else if b.1 < at {
        AgreeAfterBrackets(from, at, b.0, b.1);
      } else {
        AgreeInsideBrackets(from, at, b.0, b.1);
      }
  }

  lemma NamedAddressShape(name: string, local: string, domain: string, tail: string)
    requires '@' !in domain && '<' !in domain && '>' !in domain && '@' !in tail && '>' !in tail
    ensures var from := name + "<" + local + "@" + domain + ">" + tail;
            var at, r := |name| + 1 + |local|, |name| + 2 + |local| + |domain|;
            && LastIndex(from, '@') == Some(at)
            && Brackets(from).Some? && Brackets(from).value.0 <= |name| && Brackets(from).value.1 == r
            && from[at + 1..r] == domain
            && from[r - 1] != '>'
  {
    hide LastIndex;
    var from := name + "<" + local + "@" + domain + ">" + tail;
    var at, r := |name| + 1 + |local|, |name| + 2 + |local| + |domain|;
    assert from[at] == '@' && from[r] == '>' && from[|name|] == '<';
    assert from[at + 1..r] == domain && from[r + 1..] == tail;
    assert forall k :: at < k < r ==> from[k] == domain[k - at - 1];
    assert forall k :: r < k < |from| ==> from[k] == tail[k - r - 1];
    LastIndexIs(from, '@', at);
    LastIndexIs(from, '>', r);
  }

  /** A display name of any kind and one bracketed address that ends the value (sections 3.4
      and 3.4.1 of RFC 5322): both parsers read the address's domain. */
  lemma NamedAddressAgrees(name: string, local: string, domain: string)
    requires '@' !in domain && '<' !in domain && '>' !in domain
    ensures ParsersAgree(name + "<" + local + "@" + domain + ">")
    ensures ExtractedDomain(name + "<" + local + "@" + domain + ">") == Lower(Trim(domain))
  {
    hide LastIndex;
    hide Trim;
    hide Brackets;
    hide DomainOf;
    var from := name + "<" + local + "@" + domain + ">";
    assert from + "" == from;
    NamedAddressShape(name, local, domain, "");
    var b := Brackets(from).value;
    LastIndexOfSlice(from, |name| + 1 + |local|, b.0 + 1, b.1);
    ParsersAgreeIff(from);
  }

  /** White space after the closing bracket is enough to part the parsers. */
  lemma TrailingSpaceDisagrees(name: string, local: string, domain: string)
    requires '@' !in domain && '<' !in domain && '>' !in domain
    ensures !ParsersAgree(name + "<" + local + "@" + domain + ">" + " ")
  {
    hide LastIndex;
    hide Trim;
    hide Brackets;
    hide DomainOf;
    hide ParsersAgree;
    NamedAddressShape(name, local, domain, " ");
    ParsersAgreeIff(name + "<" + local + "@" + domain + ">" + " ");
  }

  /** A bare address: both parsers read its domain. */
  lemma BareAddressAgrees(local: string, domain: string)
    requires '<' !in local && '>' !in local && '@' !in domain && '<' !in domain && '>' !in domain
    ensures ParsersAgree(local + "@" + domain)
    ensures ExtractedDomain(local + "@" + domain) == Lower(Trim(domain))
  {
    hide LastIndex;
    hide Trim;
    var from := local + "@" + domain;
    assert from[|local|] == '@' && from[|local| + 1..] == domain;
    assert forall k :: |local| < k < |from| ==> from[k] == domain[k - |local| - 1];
    assert forall k :: 0 <= k < |from| ==> from[k] != '>' && from[k] != '<';
    LastIndexIs(from, '@', |local|);
    ParsersAgreeIff(from);
  }

  // ---- letter case and white space ------------------------------------------------------------

  predicate Upper(c: char) {
    'A' <= c <= 'Z'
  }

  /** Every letter of a domain is in lower case; what is not an upper-case letter stays as it is. */
  lemma LowerCase(s: string)
    ensures forall k :: 0 <= k < |s| ==> !Upper(Lower(s)[k]) && (!Upper(s[k]) ==> Lower(s)[k] == s[k])
    ensures forall k :: 0 <= k < |s| && Upper(s[k]) ==> Lower(s)[k] as int == s[k] as int + 32
  {
  }

  /** Both parsers read one domain whatever the letter case and the white space around it. */
  lemma DomainIgnoresCase(local: string, a: string, b: string)
    requires '<' !in local && '>' !in local
    requires '@' !in a && '<' !in a && '>' !in a && '@' !in b && '<' !in b && '>' !in b
    requires SpelledAlike(Trim(a), Trim(b))
    ensures ExtractedDomain(local + "@" + a) == ExtractedDomain(local + "@" + b)
    ensures ContextDomain(local + "@" + a) == ContextDomain(local + "@" + b)
  {
    BareAddressAgrees(local, a);
    BareAddressAgrees(local, b);
    SpelledAlikeIff(Trim(a), Trim(b));
    BareContext(local, a);
    BareContext(local, b);
    hide ExtractedDomain;
    hide ContextDomain;
    hide Trim;
    hide Lower;
  }

  lemma BareContext(local: string, domain: string)
    requires '@' !in domain && '>' !in domain
    ensures ContextDomain(local + "@" + domain)
         == if Lower(Trim(domain)) == "" then None else Some(Lower(Trim(domain)))
  {
    hide LastIndex;
    hide Trim;
    var from := local + "@" + domain;
    assert from[|local|] == '@' && from[|local| + 1..] == domain;
    assert forall k :: |local| < k < |from| ==> from[k] == domain[k - |local| - 1];
    LastIndexIs(from, '@', |local|);
    TrimEndMatchesNone(domain, '>');
  }

  /** Trimming takes exactly the white space at both ends. */
  lemma {:induction false} TrimIs(before: string, s: string, after: string)
    requires Blank(before) && Blank(after) && (s != "" ==> !IsSpace(s[0]) && !IsSpace(s[|s| - 1]))
    ensures Trim(before + s + after) == s
  {
    TrimStartIs(before, s + after);
    assert before + s + after == before + (s + after);
    if s == "" {
      AllTrimmed(after);
      TrimStartOfConcat(before, after);
      AllTrimmed(before);
      assert "" + after == after;
    } else {
      TrimEndIs(s, after);
    }
  }

  lemma {:induction false} TrimStartIs(before: string, rest: string)
    requires Blank(before)
    ensures TrimStart(before + rest) == TrimStart(rest)
  {
    if before == "" {
      assert "" + rest == rest;
    } else {
      TrimStartIs(before[1..], rest);
      assert (before + rest)[1..] == before[1..] + rest;
    }
  }

  lemma {:induction false} TrimEndIs(s: string, after: string)
    requires Blank(after) && s != "" && !IsSpace(s[|s| - 1])
    ensures TrimEnd(s + after) == s
  {
    if after == "" {
      assert s + "" == s;
    } else {
      TrimEndIs(s, after[..|after| - 1]);
      assert (s + after)[..|s + after| - 1] == s + after[..|after| - 1];
    }
  }

  /** White space is the blank, the tab, the line ends, the vertical tab and the form feed. */
  lemma WhatIsSpace(c: char)
    ensures IsSpace(c) <==> c as int in {9, 10, 11, 12, 13, 32}
  {
  }
}
