/** Slash-separated names as lists of components. */
module Paths {

  predicate NoSlash(c: string) { '/' !in c }

  function Split(s: string): (cs: seq<string>)
    ensures |cs| >= 1
  {
    if s == [] then [""]
    else
      var rest := Split(s[1..]);
      if s[0] == '/' then [""] + rest else [[s[0]] + rest[0]] + rest[1..]
  }

  function Join(cs: seq<string>): string
    requires |cs| >= 1
  {
    if |cs| == 1 then cs[0] else cs[0] + "/" + Join(cs[1..])
  }

  lemma {:induction false} SplitPieces(s: string)
    ensures forall i :: 0 <= i < |Split(s)| ==> NoSlash(Split(s)[i])
  {
    if s != [] { SplitPieces(s[1..]); }
  }

  lemma JoinCons(c: string, cs: seq<string>)
    requires |cs| >= 1
    ensures Join([c] + cs) == c + "/" + Join(cs)
  {
    assert ([c] + cs)[1..] == cs;
  }

  lemma PrefixSlash(a: char, c: string, rest: string)
    ensures ([a] + c) + "/" + rest == [a] + (c + "/" + rest)
  {
  }

  lemma JoinPrefixed(a: char, cs: seq<string>)
    requires |cs| >= 1
    ensures Join([[a] + cs[0]] + cs[1..]) == [a] + Join(cs)
  {
    var first := [a] + cs[0];
    if |cs| > 1 {
      JoinCons(first, cs[1..]);
      JoinCons(cs[0], cs[1..]);
      hide Join;
      assert cs == [cs[0]] + cs[1..];
      PrefixSlash(a, cs[0], Join(cs[1..]));
    } else {
      assert [first] + cs[1..] == [first];
    }
  }

  /** Joining the components gives the name back. */
  lemma {:induction false} JoinSplit(s: string)
    ensures Join(Split(s)) == s
  {
    if s != [] {
      JoinSplit(s[1..]);
      assert s == [s[0]] + s[1..];
      if s[0] == '/' {
        JoinCons("", Split(s[1..]));
      } else {
        JoinPrefixed(s[0], Split(s[1..]));
      }
    }
  }

  lemma {:induction false} SplitFirst(c: string, rest: string)
    requires NoSlash(c)
    ensures Split(c + "/" + rest) == [c] + Split(rest)
  {
    var s := c + "/" + rest;
    if c == [] {
      assert s[1..] == rest;
    } else {
      SplitFirst(c[1..], rest);
      assert s[1..] == c[1..] + "/" + rest;
      assert c == [c[0]] + c[1..];
    }
  }

  lemma {:induction false} SplitOne(c: string)
    requires NoSlash(c)
    ensures Split(c) == [c]
  {
    if c != [] {
      SplitOne(c[1..]);
      assert c == [c[0]] + c[1..];
    }
  }

  /** Splitting a name joined from slash-free components gives the components back. */
  lemma {:induction false} SplitJoin(cs: seq<string>)
    requires |cs| >= 1 && forall i :: 0 <= i < |cs| ==> NoSlash(cs[i])
    ensures Split(Join(cs)) == cs
  {
    if |cs| == 1 {
      SplitOne(cs[0]);
    } else {
      SplitJoin(cs[1..]);
      SplitFirst(cs[0], Join(cs[1..]));
    }
  }
}
