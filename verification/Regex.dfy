/** A backtracking matcher with captures: the part of the pattern language that core/links.py uses. */
module Regex {

  datatype Re =
    | Lit(text: string)
    | One(cls: char -> bool)
    | Run(cls: char -> bool)           // one or more characters, as many as possible first
    | Cat(first: Re, second: Re)
    | Alt(left: Re, right: Re)
    | Opt(body: Re)                    // taken if possible, else skipped
    | Group(name: string, body: Re)
    | End                              // the end, or just before a final newline

  /** One way to match: what is left of the text, and the captures. */
  datatype Hit = Hit(rest: string, caps: map<string, string>)

  function Span(cls: char -> bool, s: string): (n: nat)
    ensures n <= |s| && (forall i :: 0 <= i < n ==> cls(s[i])) && (n < |s| ==> !cls(s[n]))
  {
    if s == "" || !cls(s[0]) then 0 else 1 + Span(cls, s[1..])
  }

  /** The hits of a run of n characters or fewer, longest first. */
  function Shorter(s: string, n: nat, caps: map<string, string>): seq<Hit>
    requires n <= |s|
  {
    if n == 0 then [] else [Hit(s[n..], caps)] + Shorter(s, n - 1, caps)
  }

  /** Every way to match at the start of s, in the order a backtracking matcher tries them. */
  function Runs(re: Re, s: string, caps: map<string, string>): seq<Hit>
    decreases re, 0
  {
    match re
    case Lit(text) => if text <= s then [Hit(s[|text|..], caps)] else []
    case One(cls) => if s != "" && cls(s[0]) then [Hit(s[1..], caps)] else []
    case Run(cls) => Shorter(s, Span(cls, s), caps)
    case Cat(a, b) => Each(Runs(a, s, caps), b)
    case Alt(a, b) => Runs(a, s, caps) + Runs(b, s, caps)
    case Opt(a) => Runs(a, s, caps) + [Hit(s, caps)]
    case Group(name, a) => Captured(name, s, Runs(a, s, caps))
    case End => if s == "" || s == "\n" then [Hit(s, caps)] else []
  }

  function Each(hits: seq<Hit>, re: Re): seq<Hit>
    decreases re, |hits|
  {
    if hits == [] then [] else Runs(re, hits[0].rest, hits[0].caps) + Each(hits[1..], re)
  }

  function Captured(name: string, s: string, hits: seq<Hit>): seq<Hit> {
    if hits == [] then []
    else
      var h := hits[0];
      var text := if |h.rest| <= |s| then s[..|s| - |h.rest|] else "";
      [Hit(h.rest, h.caps[name := text])] + Captured(name, s, hits[1..])
  }

  // ---- The first hit, piece by piece

  ghost predicate First(re: Re, s: string, caps: map<string, string>, rest: string, caps': map<string, string>) {
    Runs(re, s, caps) != [] && Runs(re, s, caps)[0] == Hit(rest, caps')
  }

  ghost predicate Fails(re: Re, s: string, caps: map<string, string>) { Runs(re, s, caps) == [] }

  lemma FirstLit(text: string, rest: string, caps: map<string, string>)
    ensures First(Lit(text), text + rest, caps, rest, caps)
  {
    assert (text + rest)[|text|..] == rest;
  }

  lemma {:induction false} SpanOf(cls: char -> bool, x: string, rest: string)
    requires (forall i :: 0 <= i < |x| ==> cls(x[i])) && (rest != "" ==> !cls(rest[0]))
    ensures Span(cls, x + rest) == |x|
  {
    if x == "" {
      assert x + rest == rest;
    } else {
      assert (x + rest)[1..] == x[1..] + rest;
      SpanOf(cls, x[1..], rest);
    }
  }

  /** A run that is stopped by what follows it is taken whole first. */
  lemma FirstRun(cls: char -> bool, x: string, rest: string, caps: map<string, string>)
    requires x != "" && (forall i :: 0 <= i < |x| ==> cls(x[i])) && (rest != "" ==> !cls(rest[0]))
    ensures First(Run(cls), x + rest, caps, rest, caps)
  {
    SpanOf(cls, x, rest);
    assert (x + rest)[|x|..] == rest;
  }

  lemma FirstCat(a: Re, b: Re, s: string, caps: map<string, string>, mid: string, caps1: map<string, string>, rest: string, caps2: map<string, string>)
    requires First(a, s, caps, mid, caps1) && First(b, mid, caps1, rest, caps2)
    ensures First(Cat(a, b), s, caps, rest, caps2)
  {
  }

  lemma FirstGroup(name: string, a: Re, x: string, rest: string, caps: map<string, string>, caps': map<string, string>)
    requires First(a, x + rest, caps, rest, caps')
    ensures First(Group(name, a), x + rest, caps, rest, caps'[name := x])
  {
    assert (x + rest)[..|x + rest| - |rest|] == x;
  }

  /** A group around a run. */
  lemma FirstCapture(name: string, cls: char -> bool, x: string, rest: string, caps: map<string, string>)
    requires x != "" && (forall i :: 0 <= i < |x| ==> cls(x[i])) && (rest != "" ==> !cls(rest[0]))
    ensures First(Group(name, Run(cls)), x + rest, caps, rest, caps[name := x])
  {
    FirstRun(cls, x, rest, caps);
    FirstGroup(name, Run(cls), x, rest, caps, caps);
  }

  lemma FirstOptTaken(a: Re, s: string, caps: map<string, string>, rest: string, caps': map<string, string>)
    requires First(a, s, caps, rest, caps')
    ensures First(Opt(a), s, caps, rest, caps')
  {
  }

  lemma FirstOptSkipped(a: Re, s: string, caps: map<string, string>)
    requires Fails(a, s, caps)
    ensures First(Opt(a), s, caps, s, caps)
  {
  }

  lemma CatFails(a: Re, b: Re, s: string, caps: map<string, string>)
    requires Fails(a, s, caps)
    ensures Fails(Cat(a, b), s, caps)
  {
  }

  /** After a part that matches in one way only, a sequence matches as its second part does. */
  lemma CatOfOne(a: Re, b: Re, s: string, caps: map<string, string>, rest: string, caps': map<string, string>)
    requires Runs(a, s, caps) == [Hit(rest, caps')]
    ensures Runs(Cat(a, b), s, caps) == Runs(b, rest, caps')
  {
    assert Each([Hit(rest, caps')], b) == Runs(b, rest, caps') + Each([], b);
  }
}
