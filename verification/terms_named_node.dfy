/**
 `NamedNode::new` of the older term model: the input is kept verbatim when it
 matches the pattern `^(?:http|https)://(?:\w+\.)+\w+/.*$`, written here as a
 deterministic string predicate; otherwise construction fails.
 */
module TermsNamedNode {
  import opened Wrappers
  import opened Sequences
  import opened Errors
  import opened NamedNodes
  import Spellings

  predicate IsAsciiWordChar(c: char) {
    'a' <= c <= 'z' || 'A' <= c <= 'Z' || '0' <= c <= '9' || c == '_'
  }

  /**
   What the model needs of the regex class `\w` (Unicode word characters): it holds
   of ASCII letters, digits and '_', and not of '.', '/' or a newline.
   */
  predicate IsWordClass(w: char -> bool) {
    && (forall c :: IsAsciiWordChar(c) ==> w(c))
    && !w('.') && !w('/') && !w('\n')
  }

  /** `\w+`. */
  predicate IsWord(l: string, w: char -> bool) {
    |l| > 0 && forall i :: 0 <= i < |l| ==> w(l[i])
  }

  /** The dot-separated labels of a host. */
  function Split(s: string): (ls: seq<string>)
    ensures |ls| > 0
    ensures forall i :: 0 <= i < |ls| ==> '.' !in ls[i]
    decreases |s|
  {
    match FirstIndex(s, '.')
    case None => [s]
    case Some(i) => [s[..i]] + Split(s[i + 1..])
  }

  /** Labels joined with dots. */
  function Join(ls: seq<string>): string
    requires |ls| > 0
    decreases |ls|
  {
    if |ls| == 1 then ls[0] else ls[0] + "." + Join(ls[1..])
  }

  lemma {:induction false} JoinSplit(s: string)
    ensures Join(Split(s)) == s
    decreases |s|
  {
    match FirstIndex(s, '.')
    case None =>
    case Some(i) =>
      JoinSplit(s[i + 1..]);
      assert s == s[..i] + "." + s[i + 1..];
  }

  lemma {:induction false} SplitJoin(ls: seq<string>)
    requires |ls| > 0
    requires forall i :: 0 <= i < |ls| ==> '.' !in ls[i]
    ensures Split(Join(ls)) == ls
    decreases |ls|
  {
    if |ls| > 1 {
      SplitJoin(ls[1..]);
      SplitFirstLabel(ls[0], Join(ls[1..]));
      assert [ls[0]] + ls[1..] == ls;
    } else {
      assert FirstIndex(ls[0], '.').None?;
    }
  }

  /** A dot-free label followed by a dot splits off as the first label. */
  lemma SplitFirstLabel(a: string, b: string)
    requires '.' !in a
    ensures Split(a + "." + b) == [a] + Split(b)
  {
    var s := a + "." + b;
    FirstIndexOfConcat(a, '.', b);
    assert s[..|a|] == a;
    assert s[|a| + 1..] == b;
  }

  lemma {:induction false} JoinHasNo(ls: seq<string>, c: char)
    requires |ls| > 0 && c != '.'
    requires forall i :: 0 <= i < |ls| ==> c !in ls[i]
    ensures c !in Join(ls)
    decreases |ls|
  {
    if |ls| > 1 {
      JoinHasNo(ls[1..], c);
    }
  }

  /** `(?:\w+\.)+\w+`: at least two labels, each a non-empty run of word characters. */
  predicate IsHost(h: string, w: char -> bool) {
    var ls := Split(h);
    |ls| >= 2 && forall i :: 0 <= i < |ls| ==> IsWord(ls[i], w)
  }

  /** The scheme ("http" or "https") and what follows its "://", if the input starts with one. */
  function SplitScheme(s: string): (r: Option<(string, string)>)
    ensures r.Some? ==> r.value.0 == "http" || r.value.0 == "https"
    ensures r.Some? ==> s == r.value.0 + "://" + r.value.1
  {
    if |s| >= 7 && s[..7] == "http://" then
      assert s == s[..7] + s[7..];
      Some(("http", s[7..]))
    else if |s| >= 8 && s[..8] == "https://" then
      assert s == s[..8] + s[8..];
      Some(("https", s[8..]))
    else None
  }

  /**
   The pattern as a predicate: scheme, host up to the first '/', that '/', then a
   rest without a newline (`.` does not match '\n' and `$` anchors at the end).
   */
  predicate IsAbsoluteUri(s: string, w: char -> bool): (b: bool)
    ensures b ==> (|s| >= 7 && s[..7] == "http://") || (|s| >= 8 && s[..8] == "https://")
    ensures b ==> |s| > 8 && var n := if s[4] == ':' then 7 else 8; s[n] != '/' && '/' in s[n + 1..]
  {
    match SplitScheme(s)
    case None => false
    case Some((_, rest)) =>
      match FirstIndex(rest, '/')
      case None => false
      case Some(i) => IsHost(rest[..i], w) && '\n' !in rest[i + 1..]
  }

  /** `NamedNode::new`. */
  function New(value: string, w: char -> bool): (r: Result<NamedNode, Error>)
    ensures r.Ok? <==> IsAbsoluteUri(value, w)
    ensures r.Ok? ==> r.value.value == value
    ensures r.Err? ==> r.error == InvalidUriError(value)
  {
    if IsAbsoluteUri(value, w) then Ok(NamedNode(value)) else Err(InvalidUriError(value))
  }

  lemma SplitSchemeOf(scheme: string, rest: string)
    requires scheme == "http" || scheme == "https"
    ensures SplitScheme(scheme + "://" + rest) == Some((scheme, rest))
  {
    var s := scheme + "://" + rest;
    if scheme == "http" {
      assert s[..7] == "http://" && s[7..] == rest;
    } else {
      assert s[4] == 's';
      assert s[..8] == "https://" && s[8..] == rest;
    }
  }

  lemma FirstIndexOfConcat(a: string, c: char, b: string)
    requires c !in a
    ensures FirstIndex(a + [c] + b, c) == Some(|a|)
  {
    var s := a + [c] + b;
    assert s[|a|] == c;
    assert s[..|a|] == a;
  }

  /** Word labels contain neither separator. */
  lemma WordsHaveNoSeparators(labels: seq<string>, w: char -> bool)
    requires !w('.') && !w('/')
    requires forall i :: 0 <= i < |labels| ==> IsWord(labels[i], w)
    ensures forall i :: 0 <= i < |labels| ==> '.' !in labels[i] && '/' !in labels[i]
  {
    forall i | 0 <= i < |labels| ensures '.' !in labels[i] && '/' !in labels[i] {
      var l := labels[i];
      assert forall k :: 0 <= k < |l| ==> w(l[k]);
    }
  }

  /** Scheme, a slash-free host of the pattern, '/', and a newline-free tail are accepted. */
  lemma AcceptsParts(scheme: string, host: string, tail: string, w: char -> bool)
    requires scheme == "http" || scheme == "https"
    requires '/' !in host && IsHost(host, w) && '\n' !in tail
    ensures IsAbsoluteUri(scheme + "://" + (host + "/" + tail), w)
  {
    var rest := host + "/" + tail;
    SplitSchemeOf(scheme, rest);
    FirstIndexOfConcat(host, '/', tail);
    assert rest[..|host|] == host && rest[|host| + 1..] == tail;
  }

  /** Word labels joined with dots form a slash-free host. */
  lemma JoinedLabelsAreHost(labels: seq<string>, w: char -> bool)
    requires IsWordClass(w)
    requires |labels| >= 2 && forall i :: 0 <= i < |labels| ==> IsWord(labels[i], w)
    ensures IsHost(Join(labels), w) && '/' !in Join(labels)
  {
    WordsHaveNoSeparators(labels, w);
    JoinHasNo(labels, '/');
    SplitJoin(labels);
  }

  /** Every string of the pattern's shape is accepted. */
  lemma AcceptsComposed(scheme: string, labels: seq<string>, tail: string, w: char -> bool)
    requires IsWordClass(w)
    requires scheme == "http" || scheme == "https"
    requires |labels| >= 2 && forall i :: 0 <= i < |labels| ==> IsWord(labels[i], w)
    requires '\n' !in tail
    ensures IsAbsoluteUri(scheme + "://" + Join(labels) + "/" + tail, w)
  {
    JoinedLabelsAreHost(labels, w);
    AcceptsParts(scheme, Join(labels), tail, w);
    Regroup(scheme, Join(labels), tail);
  }

  /** The IRI read as scheme, "://", and the host followed by its path. */
  lemma Regroup(scheme: string, host: string, tail: string)
    ensures scheme + "://" + host + "/" + tail == scheme + "://" + (host + "/" + tail)
  {
  }

  /** An accepted string splits into scheme, host and the text after the host's '/'. */
  lemma AcceptedParts(s: string, w: char -> bool) returns (scheme: string, host: string, tail: string)
    requires IsAbsoluteUri(s, w)
    ensures scheme == "http" || scheme == "https"
    ensures IsHost(host, w) && '\n' !in tail
    ensures s == scheme + "://" + (host + "/" + tail)
  {
    var parts := SplitScheme(s).value;
    scheme := parts.0;
    var rest := parts.1;
    var i := FirstIndex(rest, '/').value;
    host := rest[..i];
    tail := rest[i + 1..];
    SplitAtSlash(rest, i);
  }

  lemma SplitAtSlash(rest: string, i: nat)
    requires i < |rest| && rest[i] == '/'
    ensures rest == rest[..i] + "/" + rest[i + 1..]
  {
    assert rest == rest[..i] + [rest[i]] + rest[i + 1..];
  }

  /** Every accepted string has the pattern's shape. */
  lemma AcceptedDecomposes(s: string, w: char -> bool) returns (scheme: string, labels: seq<string>, tail: string)
    requires IsAbsoluteUri(s, w)
    ensures scheme == "http" || scheme == "https"
    ensures |labels| >= 2 && forall i :: 0 <= i < |labels| ==> IsWord(labels[i], w)
    ensures '\n' !in tail
    ensures s == scheme + "://" + Join(labels) + "/" + tail
  {
    var host;
    scheme, host, tail := AcceptedParts(s, w);
    labels := Split(host);
    JoinSplit(host);
    Regroup(scheme, host, tail);
  }

  /** An IRI with a two-label ASCII host is accepted verbatim. */
  lemma NewAcceptsTwoLabelHost(scheme: string, a: string, b: string, tail: string, w: char -> bool)
    requires IsWordClass(w)
    requires scheme == "http" || scheme == "https"
    requires |a| > 0 && |b| > 0
    requires forall i :: 0 <= i < |a| ==> IsAsciiWordChar(a[i])
    requires forall i :: 0 <= i < |b| ==> IsAsciiWordChar(b[i])
    requires '\n' !in tail
    ensures New(scheme + "://" + a + "." + b + "/" + tail, w) == Ok(NamedNode(scheme + "://" + a + "." + b + "/" + tail))
  {
    assert IsWord(a, w) && IsWord(b, w);
    AcceptsComposed(scheme, [a, b], tail, w);
    JoinTwo(a, b);
    Regroup2(scheme, a, b, tail);
  }

  lemma JoinTwo(a: string, b: string)
    ensures Join([a, b]) == a + "." + b
  {
    assert [a, b][1..] == [b];
  }

  /** A two-label host read as one part of the IRI. */
  lemma Regroup2(scheme: string, a: string, b: string, tail: string)
    ensures scheme + "://" + (a + "." + b) + "/" + tail == scheme + "://" + a + "." + b + "/" + tail
  {
  }

  /** The unit test of a valid IRI. */
  lemma NewAcceptsExample(w: char -> bool)
    requires IsWordClass(w)
    ensures New("https://foo.com/bar", w) == Ok(NamedNode("https://foo.com/bar"))
  {
    NewAcceptsTwoLabelHost("https", "foo", "com", "bar", w);
    Spellings.HttpsFooComBar();
  }

  /** The unit test of an invalid IRI: the error carries the input. */
  lemma NewRejectsExample(w: char -> bool)
    ensures New("foo", w) == Err(InvalidUriError("foo"))
  {
  }

  /** Without a '/' after the host, the pattern does not match. */
  lemma NewRejectsMissingSlash(w: char -> bool)
    ensures New("https://foo.com", w).Err?
  {
    assert "https://foo.com" == "https" + "://" + "foo.com";
    SplitSchemeOf("https", "foo.com");
    assert '/' !in "foo.com";
  }

  /** A host with a single label does not match, whatever follows it. */
  lemma NewRejectsOneLabelHost(scheme: string, name: string, tail: string, w: char -> bool)
    requires scheme == "http" || scheme == "https"
    requires '.' !in name && '/' !in name
    ensures New(scheme + "://" + (name + "/" + tail), w) == Err(InvalidUriError(scheme + "://" + (name + "/" + tail)))
  {
    var rest := name + "/" + tail;
    SplitSchemeOf(scheme, rest);
    FirstIndexOfConcat(name, '/', tail);
    assert rest[..|name|] == name;
    assert Split(name) == [name];
  }

  /** The single-label host "localhost" is rejected. */
  lemma NewRejectsSingleLabelHost(w: char -> bool)
    ensures New("http://localhost/", w).Err?
  {
    NewRejectsOneLabelHost("http", "localhost", "", w);
    Spellings.HttpLocalhost();
  }

  /** `Display`: the value between angle brackets. */
  function Display(n: NamedNode): (r: string)
    ensures |r| == |n.value| + 2
    ensures r[0] == '<' && r[|r| - 1] == '>' && r[1..|r| - 1] == n.value
  {
    "<" + n.value + ">"
  }

  lemma DisplayInjective(a: NamedNode, b: NamedNode)
    ensures Display(a) == Display(b) <==> a == b
  {
  }

  /** The unit test of `Display`. */
  lemma DisplayExample(w: char -> bool)
    requires IsWordClass(w)
    ensures New("https://foo.com/bar", w).Ok?
    ensures Display(New("https://foo.com/bar", w).value) == "<https://foo.com/bar>"
  {
    NewAcceptsExample(w);
    DisplayFooComBar();
  }

  lemma DisplayFooComBar()
    ensures Display(NamedNode("https://foo.com/bar")) == "<https://foo.com/bar>"
  {
    Spellings.BracketedHttpsFooComBar();
  }

  /** Equality is equality of values, hence reflexive and symmetric. */
  lemma EqualityIsValueEquality(a: NamedNode, b: NamedNode)
    ensures a == a
    ensures a == b <==> a.value == b.value
    ensures a == b ==> b == a
  {
  }
}
