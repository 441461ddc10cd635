/**
 Sampling strings that match a model pattern. Every repetition is expanded the
 same number of times, and a doubling and bisecting search finds the least such
 count that makes the sample long enough. A sample is cut short once it is
 certainly too long to be used.
 */
module AwsPattern {
  import opened Wrappers

  const MAX_GENERATED_LENGTH: nat := 0x1_0000
  const UTF_MAX := 4

  /** A parsed pattern. `Anchor` stands for every construct that matches a position; `max` is None for no bound. */
  datatype Regex =
    | NoMatch
    | EmptyMatch
    | Anchor
    | Literal(runes: string)
    | CharClass(ranges: seq<(char, char)>)
    | AnyChar
    | AnyCharNotNL
    | Capture(sub: Regex)
    | Concat(subs: seq<Regex>)
    | Alternate(subs: seq<Regex>)
    | Star(sub: Regex)
    | Plus(sub: Regex)
    | Quest(sub: Regex)
    | Repeat(sub: Regex, min: nat, max: Option<nat>)

  // The language.

  predicate InClass(ranges: seq<(char, char)>, r: char) {
    exists i :: 0 <= i < |ranges| && ranges[i].0 <= r <= ranges[i].1
  }

  predicate InBounds(re: Regex, n: nat) {
    match re
    case Star(_) => true
    case Plus(_) => n >= 1
    case Quest(_) => n <= 1
    case Repeat(_, min, max) => min <= n && (max.Some? ==> n <= max.value)
    case _ => false
  }

  predicate Repeats(re: Regex) { re.Star? || re.Plus? || re.Quest? || re.Repeat? }

  /** `s` is in the language of an anchor-free pattern. */
  ghost predicate Matches(re: Regex, s: string)
    decreases re, 1, 0
  {
    match re
    case NoMatch => false
    case EmptyMatch => s == ""
    case Anchor => s == ""
    case Literal(runes) => s == runes
    case CharClass(ranges) => |s| == 1 && InClass(ranges, s[0])
    case AnyChar => |s| == 1
    case AnyCharNotNL => |s| == 1 && s[0] != '\n'
    case Capture(sub) => Matches(sub, s)
    case Concat(subs) => MatchesParts(re, |subs|, s)
    case Alternate(subs) => exists i :: 0 <= i < |subs| && Matches(subs[i], s)
    case _ => exists n: nat :: InBounds(re, n) && MatchesTimes(re, n, s)
  }

  /** `s` is a concatenation of matches of the first `n` parts. */
  ghost predicate MatchesParts(re: Regex, n: nat, s: string)
    requires re.Concat? && n <= |re.subs|
    decreases re, 0, n
  {
    if n == 0 then s == ""
    else exists k :: 0 <= k <= |s| && MatchesParts(re, n - 1, s[..k]) && Matches(re.subs[n - 1], s[k..])
  }

  /** `s` is a concatenation of `n` matches of the repeated part. */
  ghost predicate MatchesTimes(re: Regex, n: nat, s: string)
    requires Repeats(re)
    decreases re, 0, n
  {
    if n == 0 then s == ""
    else exists k :: 0 <= k <= |s| && MatchesTimes(re, n - 1, s[..k]) && Matches(re.sub, s[k..])
  }

  /** What the parser guarantees: ranges come in ordered pairs and bounds are ordered. */
  predicate WellFormed(re: Regex) {
    match re
    case CharClass(ranges) => forall i :: 0 <= i < |ranges| ==> ranges[i].0 <= ranges[i].1
    case Capture(sub) => WellFormed(sub)
    case Concat(subs) => forall i :: 0 <= i < |subs| ==> WellFormed(subs[i])
    case Alternate(subs) => forall i :: 0 <= i < |subs| ==> WellFormed(subs[i])
    case Star(sub) => WellFormed(sub)
    case Plus(sub) => WellFormed(sub)
    case Quest(sub) => WellFormed(sub)
    case Repeat(sub, min, max) => WellFormed(sub) && (max.Some? ==> min <= max.value)
    case _ => true
  }

  predicate AnchorFree(re: Regex) {
    match re
    case Anchor => false
    case Capture(sub) => AnchorFree(sub)
    case Concat(subs) => forall i :: 0 <= i < |subs| ==> AnchorFree(subs[i])
    case Alternate(subs) => forall i :: 0 <= i < |subs| ==> AnchorFree(subs[i])
    case Star(sub) => AnchorFree(sub)
    case Plus(sub) => AnchorFree(sub)
    case Quest(sub) => AnchorFree(sub)
    case Repeat(sub, _, _) => AnchorFree(sub)
    case _ => true
  }

  // Sampling.

  const PREFERRED := "abcdefghijklmnopqrstuvwxyz" + "0123456789" + "ABCDEFGHIJKLMNOPQRSTUVWXYZ" + "-_.!#$%&'()*+,/:;<=>?@[]^`{|}~"

  function FirstInClass(ranges: seq<(char, char)>, candidates: string): Option<char> {
    if candidates == "" then None
    else if InClass(ranges, candidates[0]) then Some(candidates[0])
    else FirstInClass(ranges, candidates[1..])
  }

  function ClassRune(ranges: seq<(char, char)>): Option<char> {
    if ranges == [] then None
    else match FirstInClass(ranges, PREFERRED) case Some(r) => Some(r) case None => Some(ranges[0].0)
  }

  lemma {:induction false} FirstInClassSound(ranges: seq<(char, char)>, candidates: string)
    ensures FirstInClass(ranges, candidates).Some? ==> InClass(ranges, FirstInClass(ranges, candidates).value)
  {
    if candidates != "" && !InClass(ranges, candidates[0]) { FirstInClassSound(ranges, candidates[1..]); }
  }

  /** A class that is not empty yields one of its members. */
  lemma ClassRuneSound(ranges: seq<(char, char)>)
    requires WellFormed(CharClass(ranges))
    ensures ClassRune(ranges).Some? <==> ranges != []
    ensures ranges != [] ==> InClass(ranges, ClassRune(ranges).value)
  {
    hide FirstInClass;
    FirstInClassSound(ranges, PREFERRED);
    if ranges != [] { assert ranges[0].0 <= ranges[0].0 <= ranges[0].1; }
  }

  /** The first candidate in the class, if any is. */
  lemma {:induction false} FirstInClassMeaning(ranges: seq<(char, char)>, candidates: string)
    ensures FirstInClass(ranges, candidates).None? <==> forall i :: 0 <= i < |candidates| ==> !InClass(ranges, candidates[i])
    ensures FirstInClass(ranges, candidates).Some? ==>
      exists i :: 0 <= i < |candidates| && candidates[i] == FirstInClass(ranges, candidates).value && FirstAt(ranges, candidates, i)
  {
    hide InClass;
    if candidates != "" {
      if InClass(ranges, candidates[0]) {
        assert FirstAt(ranges, candidates, 0);
      } else {
        FirstInClassMeaning(ranges, candidates[1..]);
        if FirstInClass(ranges, candidates[1..]).Some? {
          var i :| 0 <= i < |candidates[1..]| && candidates[1..][i] == FirstInClass(ranges, candidates[1..]).value && FirstAt(ranges, candidates[1..], i);
          forall j | 0 <= j < i + 1 ensures !InClass(ranges, candidates[j]) { if j > 0 { assert candidates[1..][j - 1] == candidates[j]; } }
          assert FirstAt(ranges, candidates, i + 1);
        }
        assert forall i :: 0 < i < |candidates| ==> candidates[i] == candidates[1..][i - 1];
      }
    }
  }

  ghost predicate FirstAt(ranges: seq<(char, char)>, candidates: string, i: nat) {
    i < |candidates| && InClass(ranges, candidates[i]) && forall j :: 0 <= j < i ==> !InClass(ranges, candidates[j])
  }

  /** A class with a lower-case letter is sampled by one, and no earlier letter is in the class. */
  lemma ClassRunePrefers(ranges: seq<(char, char)>, c: char)
    requires ranges != [] && 'a' <= c <= 'z' && InClass(ranges, c)
    ensures ClassRune(ranges).Some? && 'a' <= ClassRune(ranges).value <= c
  {
    hide InClass, FirstInClass;
    var letters := "abcdefghijklmnopqrstuvwxyz";
    assert forall i :: 0 <= i < 26 ==> letters[i] as int == 'a' as int + i;
    var at := c as int - 'a' as int;
    assert PREFERRED[at] == letters[at] == c;
    FirstInClassMeaning(ranges, PREFERRED);
    assert FirstInClass(ranges, PREFERRED).Some?;
    var i :| 0 <= i < |PREFERRED| && PREFERRED[i] == FirstInClass(ranges, PREFERRED).value && FirstAt(ranges, PREFERRED, i);
    assert i <= at && PREFERRED[i] == letters[i];
  }

  /** A class without one is sampled by its first digit if it has any. */
  lemma ClassRuneThenDigit(ranges: seq<(char, char)>, c: char)
    requires ranges != [] && '0' <= c <= '9' && InClass(ranges, c)
    requires forall l :: 'a' <= l <= 'z' ==> !InClass(ranges, l)
    ensures ClassRune(ranges).Some? && '0' <= ClassRune(ranges).value <= c
  {
    hide InClass, FirstInClass, FirstAt;
    LettersThenDigits();
    assert c == PREFERRED[26 + (c as int - '0' as int)];
    FirstInClassMeaning(ranges, PREFERRED);
    assert FirstInClass(ranges, PREFERRED).Some?;
    var i :| 0 <= i < |PREFERRED| && PREFERRED[i] == FirstInClass(ranges, PREFERRED).value && FirstAt(ranges, PREFERRED, i);
    FirstIsBefore(ranges, PREFERRED, i, 26 + (c as int - '0' as int));
  }

  lemma LettersThenDigits()
    ensures |PREFERRED| > 36
    ensures forall i :: 0 <= i < 26 ==> 'a' <= PREFERRED[i] <= 'z'
    ensures forall i :: 26 <= i < 36 ==> PREFERRED[i] as int == '0' as int + i - 26
  {
    var letters, digits := "abcdefghijklmnopqrstuvwxyz", "0123456789";
    assert forall i :: 0 <= i < 26 ==> PREFERRED[i] == letters[i];
    assert forall i :: 26 <= i < 36 ==> PREFERRED[i] == digits[i - 26];
    assert forall i :: 0 <= i < 26 ==> letters[i] as int == 'a' as int + i;
    assert forall i :: 0 <= i < 10 ==> digits[i] as int == '0' as int + i;
  }

  lemma FirstIsBefore(ranges: seq<(char, char)>, candidates: string, i: nat, at: nat)
    requires FirstAt(ranges, candidates, i) && at < |candidates| && InClass(ranges, candidates[at])
    ensures i <= at && InClass(ranges, candidates[i])
  {
    hide InClass;
  }

  function Repetitions(re: Regex, repeat: nat): nat
    requires Repeats(re)
  {
    var low := if re.Plus? then 1 else if re.Repeat? then re.min else 0;
    var high := if re.Quest? then Some(1) else if re.Repeat? then re.max else None;
    var count := if repeat < low then low else repeat;
    if high.Some? && high.value < count then high.value else count
  }

  function Utf8Length(s: string): (n: nat)
    ensures |s| <= n <= UTF_MAX * |s|
  {
    if s == "" then 0
    else
      var c := s[|s| - 1] as int;
      Utf8Length(s[..|s| - 1]) + if c < 0x80 then 1 else if c < 0x800 then 2 else if c < 0x1_0000 then 3 else 4
  }

  /** What is in the builder already rules the sample out. */
  predicate TooLong(b: string, limit: int) { Utf8Length(b) > limit * UTF_MAX }

  lemma TooLongMeaning(b: string, limit: int)
    requires TooLong(b, limit)
    ensures |b| > limit
  {
  }

  /** The builder after a sample is appended to `b`, or None when there is no sample. */
  function Write(b: string, re: Regex, repeat: nat, limit: int): Option<string>
    decreases re, 1, 0
  {
    if TooLong(b, limit) then Some(b)
    else
      match re
      case NoMatch => None
      case Literal(runes) => Some(b + runes)
      case CharClass(ranges) => (match ClassRune(ranges) case None => None case Some(r) => Some(b + [r]))
      case AnyChar => Some(b + "a")
      case AnyCharNotNL => Some(b + "a")
      case Capture(sub) => Write(b, sub, repeat, limit)
      case Concat(subs) => WriteParts(b, re, |subs|, repeat, limit)
      case Alternate(subs) => (match WriteFirst(re, 0, repeat, limit) case None => None case Some(a) => Some(b + a))
      case EmptyMatch => Some(b)
      case Anchor => Some(b)
      case _ => WriteTimes(b, re, Repetitions(re, repeat), repeat, limit)
  }

  function WriteParts(b: string, re: Regex, n: nat, repeat: nat, limit: int): Option<string>
    requires re.Concat? && n <= |re.subs|
    decreases re, 0, n
  {
    if n == 0 then Some(b)
    else match WriteParts(b, re, n - 1, repeat, limit) case None => None case Some(c) => Write(c, re.subs[n - 1], repeat, limit)
  }

  function WriteFirst(re: Regex, i: nat, repeat: nat, limit: int): Option<string>
    requires re.Alternate? && i <= |re.subs|
    decreases re, 0, |re.subs| - i
  {
    if i == |re.subs| then None
    else
      var a := Write("", re.subs[i], repeat, limit);
      if a.Some? then a else WriteFirst(re, i + 1, repeat, limit)
  }

  function WriteTimes(b: string, re: Regex, n: nat, repeat: nat, limit: int): Option<string>
    requires Repeats(re)
    decreases re, 0, n
  {
    if n == 0 then Some(b)
    else match WriteTimes(b, re, n - 1, repeat, limit) case None => None case Some(c) => Write(c, re.sub, repeat, limit)
  }

  /** The sampler itself: appends to the builder, or fails with whatever it had written. */
  method WriteSample(b: string, re: Regex, repeat: nat, limit: int) returns (ok: bool, out: string)
    ensures ok <==> Write(b, re, repeat, limit).Some?
    ensures ok ==> Some(out) == Write(b, re, repeat, limit)
    decreases re, 1
  {
    hide TooLong, ClassRune, Repetitions;
    out := b;
    if TooLong(b, limit) { return true, out; }
    match re
    case NoMatch => return false, out;
    case Literal(runes) => return true, out + runes;
    case CharClass(ranges) =>
      var r := ClassRune(ranges);
      if r.None? { return false, out; }
      return true, out + [r.value];
    case AnyChar => return true, out + "a";
    case AnyCharNotNL => return true, out + "a";
    case Capture(sub) => ok, out := WriteSample(b, sub, repeat, limit);
    case Concat(subs) => ok, out := WriteEach(b, re, repeat, limit);
    case Alternate(subs) =>
      for i := 0 to |subs|
        invariant WriteFirst(re, 0, repeat, limit) == WriteFirst(re, i, repeat, limit)
      {
        var fits, alternative := WriteSample("", subs[i], repeat, limit);
        if fits { return true, b + alternative; }
      }
      return false, out;
    case EmptyMatch => ok := true;
    case Anchor => ok := true;
    case _ => ok, out := WriteRepeated(b, re, repeat, limit);
  }

  method WriteEach(b: string, re: Regex, repeat: nat, limit: int) returns (ok: bool, out: string)
    requires re.Concat?
    ensures ok <==> WriteParts(b, re, |re.subs|, repeat, limit).Some?
    ensures ok ==> Some(out) == WriteParts(b, re, |re.subs|, repeat, limit)
    decreases re, 0
  {
    hide Write;
    out := b;
    for i := 0 to |re.subs|
      invariant WriteParts(b, re, i, repeat, limit) == Some(out)
    {
      ok, out := WriteSample(out, re.subs[i], repeat, limit);
      if !ok { PartsFail(b, re, i + 1, |re.subs|, repeat, limit); return; }
    }
    ok := true;
  }

  method WriteRepeated(b: string, re: Regex, repeat: nat, limit: int) returns (ok: bool, out: string)
    requires Repeats(re)
    ensures ok <==> WriteTimes(b, re, Repetitions(re, repeat), repeat, limit).Some?
    ensures ok ==> Some(out) == WriteTimes(b, re, Repetitions(re, repeat), repeat, limit)
    decreases re, 0
  {
    hide Write, Repetitions;
    out := b;
    var count := Repetitions(re, repeat);
    for i := 0 to count
      invariant WriteTimes(b, re, i, repeat, limit) == Some(out)
    {
      ok, out := WriteSample(out, re.sub, repeat, limit);
      if !ok { TimesFail(b, re, i + 1, count, repeat, limit); return; }
    }
    ok := true;
  }

  lemma {:induction false} PartsFail(b: string, re: Regex, i: nat, n: nat, repeat: nat, limit: int)
    requires re.Concat? && i <= n <= |re.subs| && WriteParts(b, re, i, repeat, limit).None?
    ensures WriteParts(b, re, n, repeat, limit).None?
  {
    if i < n { PartsFail(b, re, i, n - 1, repeat, limit); }
  }

  lemma {:induction false} TimesFail(b: string, re: Regex, i: nat, n: nat, repeat: nat, limit: int)
    requires Repeats(re) && i <= n && WriteTimes(b, re, i, repeat, limit).None?
    ensures WriteTimes(b, re, n, repeat, limit).None?
  {
    if i < n { TimesFail(b, re, i, n - 1, repeat, limit); }
  }

  // The sample that is never cut short.

  function Full(re: Regex, repeat: nat): Option<string>
    decreases re, 1, 0
  {
    match re
    case NoMatch => None
    case Literal(runes) => Some(runes)
    case CharClass(ranges) => (match ClassRune(ranges) case None => None case Some(r) => Some([r]))
    case AnyChar => Some("a")
    case AnyCharNotNL => Some("a")
    case Capture(sub) => Full(sub, repeat)
    case Concat(subs) => FullParts(re, |subs|, repeat)
    case Alternate(subs) => FullFirst(re, 0, repeat)
    case EmptyMatch => Some("")
    case Anchor => Some("")
    case _ => FullTimes(re, Repetitions(re, repeat), repeat)
  }

  function FullParts(re: Regex, n: nat, repeat: nat): Option<string>
    requires re.Concat? && n <= |re.subs|
    decreases re, 0, n
  {
    if n == 0 then Some("") else Append(FullParts(re, n - 1, repeat), Full(re.subs[n - 1], repeat))
  }

  function FullFirst(re: Regex, i: nat, repeat: nat): Option<string>
    requires re.Alternate? && i <= |re.subs|
    decreases re, 0, |re.subs| - i
  {
    if i == |re.subs| then None
    else if Full(re.subs[i], repeat).Some? then Full(re.subs[i], repeat)
    else FullFirst(re, i + 1, repeat)
  }

  function FullTimes(re: Regex, n: nat, repeat: nat): Option<string>
    requires Repeats(re)
    decreases re, 0, n
  {
    if n == 0 then Some("") else Append(FullTimes(re, n - 1, repeat), Full(re.sub, repeat))
  }

  function Append(a: Option<string>, b: Option<string>): Option<string> {
    if a.Some? && b.Some? then Some(a.value + b.value) else None
  }

  // How often a part is repeated.

  function Copies(s: string, n: nat): string { if n == 0 then "" else Copies(s, n - 1) + s }

  /** `n` copies of a sample, none being needed for none. */
  function CopiesOf(s: Option<string>, n: nat): Option<string> {
    if n == 0 then Some("") else match s case None => None case Some(v) => Some(Copies(v, n))
  }

  lemma {:induction false} TimesIsCopies(re: Regex, n: nat, repeat: nat)
    requires Repeats(re)
    ensures FullTimes(re, n, repeat) == CopiesOf(Full(re.sub, repeat), n)
  {
    hide Full;
    if n > 0 {
      TimesIsCopies(re, n - 1, repeat);
      assert FullTimes(re, n, repeat) == Append(FullTimes(re, n - 1, repeat), Full(re.sub, repeat));
      if Full(re.sub, repeat).Some? && n == 1 { assert Copies(Full(re.sub, repeat).value, 0) == ""; }
    }
  }

  function Distance(a: nat, b: nat): nat { if a < b then b - a else a - b }

  /** `c` is permitted and no permitted count is nearer to `n`. */
  ghost predicate Nearest(re: Regex, n: nat, c: nat) {
    InBounds(re, c) && forall k: nat :: InBounds(re, k) ==> Distance(c, n) <= Distance(k, n)
  }

  /** A repetition is expanded to the permitted count nearest to the one asked for. */
  lemma ExpandsToNearest(re: Regex, n: nat)
    requires WellFormed(re) && Repeats(re)
    ensures exists c: nat :: Nearest(re, n, c) && Full(re, n) == CopiesOf(Full(re.sub, n), c)
  {
    var c := Repetitions(re, n);
    TimesIsCopies(re, c, n);
    assert Nearest(re, n, c);
  }

  /** A permitted count is the number of copies. */
  lemma ExpandsExactly(re: Regex, n: nat)
    requires WellFormed(re) && Repeats(re) && InBounds(re, n)
    ensures Full(re, n) == CopiesOf(Full(re.sub, n), n)
  {
    hide Full;
    ExpandsToNearest(re, n);
    var c: nat :| Nearest(re, n, c) && Full(re, n) == CopiesOf(Full(re.sub, n), c);
    assert Distance(c, n) <= Distance(n, n);
  }

  lemma {:induction false} CopiesLength(s: string, n: nat)
    ensures |Copies(s, n)| == n * |s|
  {
    if n > 0 { CopiesLength(s, n - 1); }
  }

  ghost predicate Unbounded(re: Regex) { re.Star? || re.Plus? || (re.Repeat? && re.max.None?) }

  /** An unbounded repetition of something grows at least as fast as the count. */
  lemma UnboundedGrows(re: Regex, n: nat)
    requires WellFormed(re) && Unbounded(re) && Full(re.sub, n).Some? && Full(re.sub, n).value != ""
    ensures Full(re, n).Some? && |Full(re, n).value| >= n
  {
    hide Full, WellFormed, Copies;
    ExpandsToNearest(re, n);
    var c: nat :| Nearest(re, n, c) && Full(re, n) == CopiesOf(Full(re.sub, n), c);
    var high := if re.Repeat? && n < re.min then re.min else if re.Plus? && n == 0 then 1 else n;
    assert InBounds(re, high) && Distance(c, n) <= Distance(high, n);
    assert n <= c;
    CopiesLength(Full(re.sub, n).value, c);
    assert c * |Full(re.sub, n).value| >= c;
  }

  // Cut-short samples.

  /** The builder grew from `b` by the full sample `w`, or past the limit. */
  ghost predicate Extends(b: string, out: Option<string>, w: Option<string>, limit: int) {
    match out
    case None => w.None?
    case Some(c) => b <= c && (|c| > limit || (w.Some? && c == b + w.value))
  }

  lemma ExtendsStep(b: string, c: string, out: Option<string>, v: Option<string>, w: Option<string>, limit: int)
    requires Extends(b, Some(c), v, limit) && Extends(c, out, w, limit)
    ensures Extends(b, out, Append(v, w), limit)
  {
  }

  /** A sample is the full one unless it is too long, and fails only when the full one does. */
  lemma {:induction false} WriteExtends(b: string, re: Regex, repeat: nat, limit: int)
    ensures Extends(b, Write(b, re, repeat, limit), Full(re, repeat), limit)
    decreases re, 1, 0
  {
    hide Utf8Length, ClassRune, Repetitions;
    if TooLong(b, limit) {
      TooLongMeaning(b, limit);
    } else {
      match re
      case Capture(sub) => WriteExtends(b, sub, repeat, limit);
      case Concat(subs) => PartsExtend(b, re, |subs|, repeat, limit);
      case Alternate(subs) => FirstExtends(re, 0, repeat, limit);
      case Star(_) => TimesExtend(b, re, Repetitions(re, repeat), repeat, limit);
      case Plus(_) => TimesExtend(b, re, Repetitions(re, repeat), repeat, limit);
      case Quest(_) => TimesExtend(b, re, Repetitions(re, repeat), repeat, limit);
      case Repeat(_, _, _) => TimesExtend(b, re, Repetitions(re, repeat), repeat, limit);
      case _ =>
    }
  }

  lemma {:induction false} PartsExtend(b: string, re: Regex, n: nat, repeat: nat, limit: int)
    requires re.Concat? && n <= |re.subs|
    ensures Extends(b, WriteParts(b, re, n, repeat, limit), FullParts(re, n, repeat), limit)
    decreases re, 0, n
  {
    if n > 0 {
      PartsExtend(b, re, n - 1, repeat, limit);
      var c := WriteParts(b, re, n - 1, repeat, limit);
      if c.Some? {
        WriteExtends(c.value, re.subs[n - 1], repeat, limit);
        hide Write, Full;
        ExtendsStep(b, c.value, Write(c.value, re.subs[n - 1], repeat, limit), FullParts(re, n - 1, repeat), Full(re.subs[n - 1], repeat), limit);
      }
    }
  }

  lemma {:induction false} TimesExtend(b: string, re: Regex, n: nat, repeat: nat, limit: int)
    requires Repeats(re)
    ensures Extends(b, WriteTimes(b, re, n, repeat, limit), FullTimes(re, n, repeat), limit)
    decreases re, 0, n
  {
    if n > 0 {
      TimesExtend(b, re, n - 1, repeat, limit);
      var c := WriteTimes(b, re, n - 1, repeat, limit);
      if c.Some? {
        WriteExtends(c.value, re.sub, repeat, limit);
        hide Write, Full;
        ExtendsStep(b, c.value, Write(c.value, re.sub, repeat, limit), FullTimes(re, n - 1, repeat), Full(re.sub, repeat), limit);
      }
    }
  }

  lemma {:induction false} FirstExtends(re: Regex, i: nat, repeat: nat, limit: int)
    requires re.Alternate? && i <= |re.subs|
    ensures Extends("", WriteFirst(re, i, repeat, limit), FullFirst(re, i, repeat), limit)
    decreases re, 0, |re.subs| - i
  {
    if i < |re.subs| {
      WriteExtends("", re.subs[i], repeat, limit);
      FirstExtends(re, i + 1, repeat, limit);
      hide Write, Full;
    }
  }

  // Soundness.

  /** The full sample of an anchor-free pattern is in its language. */
  lemma {:induction false} FullMatches(re: Regex, repeat: nat)
    requires WellFormed(re) && AnchorFree(re) && Full(re, repeat).Some?
    ensures Matches(re, Full(re, repeat).value)
    decreases re, 1, 0
  {
    hide ClassRune;
    match re
    case CharClass(ranges) => ClassRuneSound(ranges);
    case Capture(sub) => FullMatches(sub, repeat);
    case Concat(subs) => PartsMatch(re, |subs|, repeat);
    case Alternate(subs) => FirstMatches(re, 0, repeat);
    case Star(_) => TimesMatch(re, Repetitions(re, repeat), repeat);
    case Plus(_) => TimesMatch(re, Repetitions(re, repeat), repeat);
    case Quest(_) => TimesMatch(re, Repetitions(re, repeat), repeat);
    case Repeat(_, _, _) => TimesMatch(re, Repetitions(re, repeat), repeat);
    case _ =>
  }

  lemma {:induction false} PartsMatch(re: Regex, n: nat, repeat: nat)
    requires WellFormed(re) && AnchorFree(re) && re.Concat? && n <= |re.subs| && FullParts(re, n, repeat).Some?
    ensures MatchesParts(re, n, FullParts(re, n, repeat).value)
    decreases re, 0, n
  {
    if n > 0 {
      PartsMatch(re, n - 1, repeat);
      FullMatches(re.subs[n - 1], repeat);
      hide Full, Matches;
      var front, s := FullParts(re, n - 1, repeat).value, FullParts(re, n, repeat).value;
      assert s[..|front|] == front && s[|front|..] == Full(re.subs[n - 1], repeat).value;
    }
  }

  lemma {:induction false} TimesMatch(re: Regex, n: nat, repeat: nat)
    requires WellFormed(re) && AnchorFree(re) && Repeats(re) && FullTimes(re, n, repeat).Some?
    ensures MatchesTimes(re, n, FullTimes(re, n, repeat).value)
    decreases re, 0, n
  {
    if n > 0 {
      TimesMatch(re, n - 1, repeat);
      FullMatches(re.sub, repeat);
      hide Full, Matches;
      var front, s := FullTimes(re, n - 1, repeat).value, FullTimes(re, n, repeat).value;
      assert s[..|front|] == front && s[|front|..] == Full(re.sub, repeat).value;
    }
  }

  lemma {:induction false} FirstMatches(re: Regex, i: nat, repeat: nat)
    requires WellFormed(re) && AnchorFree(re) && re.Alternate? && i <= |re.subs| && FullFirst(re, i, repeat).Some?
    ensures exists j :: 0 <= j < |re.subs| && Matches(re.subs[j], FullFirst(re, i, repeat).value)
    decreases re, 0, |re.subs| - i
  {
    if Full(re.subs[i], repeat).Some? {
      FullMatches(re.subs[i], repeat);
      hide Full, Matches;
      assert Matches(re.subs[i], FullFirst(re, i, repeat).value);
    } else {
      FirstMatches(re, i + 1, repeat);
    }
  }

  /** A successful sample of at most `limit` runes was not cut short and is in the pattern's language. */
  lemma SampleSound(re: Regex, repeat: nat, limit: int)
    requires WellFormed(re) && Write("", re, repeat, limit).Some? && |Write("", re, repeat, limit).value| <= limit
    ensures Write("", re, repeat, limit) == Full(re, repeat)
    ensures AnchorFree(re) ==> Matches(re, Write("", re, repeat, limit).value)
  {
    WriteExtends("", re, repeat, limit);
    hide Write, Full, Matches, WellFormed, AnchorFree;
    var out := Write("", re, repeat, limit).value;
    assert Full(re, repeat).Some? && out == "" + Full(re, repeat).value;
    assert out == Full(re, repeat).value;
    if AnchorFree(re) { FullMatches(re, repeat); }
  }

  // Growth.

  /** A pattern every part of which has samples. */
  predicate Total(re: Regex) {
    match re
    case NoMatch => false
    case CharClass(ranges) => ranges != []
    case Capture(sub) => Total(sub)
    case Concat(subs) => forall i :: 0 <= i < |subs| ==> Total(subs[i])
    case Alternate(subs) => subs != [] && forall i :: 0 <= i < |subs| ==> Total(subs[i])
    case Star(sub) => Total(sub)
    case Plus(sub) => Total(sub)
    case Quest(sub) => Total(sub)
    case Repeat(sub, _, _) => Total(sub)
    case _ => true
  }

  ghost predicate Shorter(a: Option<string>, b: Option<string>) { a.Some? && b.Some? && |a.value| <= |b.value| }

  /** Samples grow with the repeat count. */
  lemma {:induction false} FullGrows(re: Regex, n: nat, m: nat)
    requires Total(re) && n <= m
    ensures Shorter(Full(re, n), Full(re, m))
    decreases re, 1, 0
  {
    match re
    case Capture(sub) => FullGrows(sub, n, m);
    case Concat(subs) => PartsGrow(re, |subs|, n, m);
    case Alternate(subs) => FullGrows(subs[0], n, m);
    case Star(_) => TimesGrow(re, Repetitions(re, n), Repetitions(re, m), n, m);
    case Plus(_) => TimesGrow(re, Repetitions(re, n), Repetitions(re, m), n, m);
    case Quest(_) => TimesGrow(re, Repetitions(re, n), Repetitions(re, m), n, m);
    case Repeat(_, _, _) => TimesGrow(re, Repetitions(re, n), Repetitions(re, m), n, m);
    case _ =>
  }

  lemma {:induction false} PartsGrow(re: Regex, k: nat, n: nat, m: nat)
    requires Total(re) && n <= m && re.Concat? && k <= |re.subs|
    ensures Shorter(FullParts(re, k, n), FullParts(re, k, m))
    decreases re, 0, k
  {
    if k > 0 {
      PartsGrow(re, k - 1, n, m);
      FullGrows(re.subs[k - 1], n, m);
      hide Full;
    }
  }

  lemma {:induction false} TimesGrow(re: Regex, j: nat, k: nat, n: nat, m: nat)
    requires Total(re) && Repeats(re) && n <= m && j <= k
    ensures Shorter(FullTimes(re, j, n), FullTimes(re, k, m))
    decreases re, 0, k
  {
    if k > 0 {
      TimesGrow(re, if j == 0 then 0 else j - 1, k - 1, n, m);
      FullGrows(re.sub, n, m);
      hide Full;
    }
  }

  lemma NotTooLong(b: string, limit: int)
    requires |b| <= limit
    ensures !TooLong(b, limit)
  {
  }

  /** A full sample within the limit is not cut short. */
  lemma {:induction false} NotCut(b: string, re: Regex, repeat: nat, limit: int)
    requires Total(re) && Full(re, repeat).Some? && |b| + |Full(re, repeat).value| <= limit
    ensures Write(b, re, repeat, limit) == Some(b + Full(re, repeat).value)
    decreases re, 1, 0
  {
    hide TooLong, ClassRune, Repetitions;
    NotTooLong(b, limit);
    assert b + "" == b;
    match re
    case Capture(sub) => NotCut(b, sub, repeat, limit);
    case Concat(subs) => PartsNotCut(b, re, |subs|, repeat, limit);
    case Alternate(subs) =>
      FullGrows(subs[0], repeat, repeat);
      NotCut("", subs[0], repeat, limit);
      assert "" + Full(subs[0], repeat).value == Full(subs[0], repeat).value;
    case Star(_) => TimesNotCut(b, re, Repetitions(re, repeat), repeat, limit);
    case Plus(_) => TimesNotCut(b, re, Repetitions(re, repeat), repeat, limit);
    case Quest(_) => TimesNotCut(b, re, Repetitions(re, repeat), repeat, limit);
    case Repeat(_, _, _) => TimesNotCut(b, re, Repetitions(re, repeat), repeat, limit);
    case _ =>
  }

  lemma {:induction false} PartsNotCut(b: string, re: Regex, n: nat, repeat: nat, limit: int)
    requires Total(re) && re.Concat? && n <= |re.subs| && FullParts(re, n, repeat).Some? && |b| + |FullParts(re, n, repeat).value| <= limit
    ensures WriteParts(b, re, n, repeat, limit) == Some(b + FullParts(re, n, repeat).value)
    decreases re, 0, n
  {
    if n > 0 {
      PartsNotCut(b, re, n - 1, repeat, limit);
      var c := b + FullParts(re, n - 1, repeat).value;
      NotCut(c, re.subs[n - 1], repeat, limit);
      hide Write, Full;
      assert c + Full(re.subs[n - 1], repeat).value == b + FullParts(re, n, repeat).value;
    } else {
      assert b + "" == b;
    }
  }

  lemma {:induction false} TimesNotCut(b: string, re: Regex, n: nat, repeat: nat, limit: int)
    requires Total(re) && Repeats(re) && FullTimes(re, n, repeat).Some? && |b| + |FullTimes(re, n, repeat).value| <= limit
    ensures WriteTimes(b, re, n, repeat, limit) == Some(b + FullTimes(re, n, repeat).value)
    decreases re, 0, n
  {
    if n > 0 {
      TimesNotCut(b, re, n - 1, repeat, limit);
      var c := b + FullTimes(re, n - 1, repeat).value;
      NotCut(c, re.sub, repeat, limit);
      hide Write, Full;
      assert c + Full(re.sub, repeat).value == b + FullTimes(re, n, repeat).value;
    } else {
      assert b + "" == b;
    }
  }

  // Searching for a repeat count.

  const MAX_ATTEMPTS: nat := 4

  function At(re: Regex, repeat: nat, maxLength: int): Option<string> { Write("", re, repeat, maxLength + 1) }

  function LengthAt(re: Regex, repeat: nat, maxLength: int): nat {
    match At(re, repeat, maxLength) case None => 0 case Some(v) => |v|
  }

  datatype Range = Range(low: nat, high: nat)

  function Double(re: Regex, minLength: int, maxLength: int, low: nat, high: nat): (r: Option<Range>)
    requires low < high
    ensures r.Some? ==> r.value.low < r.value.high
    decreases 2 * MAX_GENERATED_LENGTH - high
  {
    if At(re, high, maxLength).None? then None
    else if LengthAt(re, high, maxLength) >= minLength then Some(Range(low, high))
    else if high >= MAX_GENERATED_LENGTH then None
    else Double(re, minLength, maxLength, high, high * 2)
  }

  function Bisect(re: Regex, minLength: int, maxLength: int, low: nat, high: nat): nat
    requires low < high
    decreases high - low
  {
    if low + 1 < high then
      var middle := (low + high) / 2;
      if LengthAt(re, middle, maxLength) >= minLength then Bisect(re, minLength, maxLength, low, middle)
      else Bisect(re, minLength, maxLength, middle, high)
    else high
  }

  /** The first of a few counts whose sample fits and matches in full. */
  function Try(re: Regex, fullMatch: string -> bool, minLength: int, maxLength: int, repeat: nat, attempt: nat): Option<string>
    requires attempt <= MAX_ATTEMPTS
    decreases MAX_ATTEMPTS - attempt
  {
    if attempt == MAX_ATTEMPTS then None
    else
      match At(re, repeat + attempt, maxLength)
      case None => None
      case Some(v) =>
        if |v| > maxLength then None
        else if |v| >= minLength && fullMatch(v) then Some(v)
        else Try(re, fullMatch, minLength, maxLength, repeat, attempt + 1)
  }

  function Count(re: Regex, minLength: int, maxLength: int): Option<nat> {
    if At(re, 0, maxLength).None? then None
    else if LengthAt(re, 0, maxLength) >= minLength then Some(0)
    else
      match Double(re, minLength, maxLength, 0, 1)
      case None => None
      case Some(r) => Some(Bisect(re, minLength, maxLength, r.low, r.high))
  }

  function Found(re: Regex, fullMatch: string -> bool, minLength: int, maxLength: int): Option<string> {
    match Count(re, minLength, maxLength)
    case None => None
    case Some(repeat) => Try(re, fullMatch, minLength, maxLength, repeat, 0)
  }

  /** Doubles until the sample is long enough, then bisects for the smallest count. */
  method FindCount(re: Regex, minLength: int, maxLength: int) returns (r: Option<nat>)
    ensures r == Count(re, minLength, maxLength)
  {
    hide Write;
    var ok, value := WriteSample("", re, 0, maxLength + 1);
    if !ok { return None; }
    if |value| >= minLength { return Some(0); }
    var low: nat, high: nat := 0, 1;
    while true
      invariant low < high
      invariant Double(re, minLength, maxLength, 0, 1) == Double(re, minLength, maxLength, low, high)
      decreases 2 * MAX_GENERATED_LENGTH - high
    {
      ok, value := WriteSample("", re, high, maxLength + 1);
      if !ok { return None; }
      if |value| >= minLength { break; }
      if high >= MAX_GENERATED_LENGTH { return None; }
      low, high := high, high * 2;
    }
    while low + 1 < high
      invariant low < high
      invariant Count(re, minLength, maxLength) == Some(Bisect(re, minLength, maxLength, low, high))
    {
      var middle := (low + high) / 2;
      ok, value := WriteSample("", re, middle, maxLength + 1);
      if ok && |value| >= minLength { high := middle; } else { low := middle; }
    }
    return Some(high);
  }

  method Search(re: Regex, fullMatch: string -> bool, minLength: int, maxLength: int) returns (r: Option<string>)
    ensures r == Found(re, fullMatch, minLength, maxLength)
  {
    hide Write, Count;
    var count := FindCount(re, minLength, maxLength);
    if count.None? { return None; }
    for attempt := 0 to MAX_ATTEMPTS
      invariant Try(re, fullMatch, minLength, maxLength, count.value, 0) == Try(re, fullMatch, minLength, maxLength, count.value, attempt)
    {
      var ok, value := WriteSample("", re, count.value + attempt, maxLength + 1);
      if !ok || |value| > maxLength { return None; }
      if |value| >= minLength && fullMatch(value) { return Some(value); }
    }
    return None;
  }

  /** Every answer, cached or not, is that of a fresh search. */
  class PatternSampler {
    const re: Regex
    const fullMatch: string -> bool
    var samples: map<(int, int), Option<string>>

    ghost predicate Valid()
      reads this
    {
      forall key :: key in samples ==> samples[key] == Found(re, fullMatch, key.0, key.1)
    }

    constructor (re: Regex, fullMatch: string -> bool)
      ensures Valid() && this.re == re && this.fullMatch == fullMatch && samples == map[]
    {
      this.re, this.fullMatch, samples := re, fullMatch, map[];
    }

    method Sample(minLength: int, maxLength: int) returns (r: Option<string>)
      modifies this
      requires Valid()
      ensures Valid() && r == Found(re, fullMatch, minLength, maxLength)
      ensures samples == old(samples)[(minLength, maxLength) := r]
    {
      hide Found;
      var key := (minLength, maxLength);
      if key in samples {
        r := samples[key];
      } else {
        r := Search(re, fullMatch, minLength, maxLength);
        samples := samples[key := r];
      }
    }
  }

  // What the search finds.

  ghost predicate Reaches(re: Regex, minLength: int, n: nat) { Full(re, n).Some? && |Full(re, n).value| >= minLength }

  /** The least repeat count whose full sample is long enough. */
  ghost predicate IsLeast(re: Regex, minLength: int, n: nat) {
    Reaches(re, minLength, n) && forall k :: 0 <= k < n ==> !Reaches(re, minLength, k)
  }

  lemma ReachesLater(re: Regex, minLength: int, n: nat, m: nat)
    requires Total(re) && n <= m && Reaches(re, minLength, n)
    ensures Reaches(re, minLength, m)
  {
    hide Full;
    FullGrows(re, n, m);
  }

  /** Cutting samples short does not mislead the search. */
  lemma SameThreshold(re: Regex, minLength: int, maxLength: int, n: nat)
    requires Total(re) && minLength <= maxLength + 1
    ensures At(re, n, maxLength).Some?
    ensures LengthAt(re, n, maxLength) >= minLength <==> Reaches(re, minLength, n)
  {
    hide Full, Write;
    FullGrows(re, n, n);
    WriteExtends("", re, n, maxLength + 1);
    assert "" + Full(re, n).value == Full(re, n).value;
    if |Full(re, n).value| <= maxLength + 1 { NotCut("", re, n, maxLength + 1); }
  }

  lemma {:induction false} BisectLeast(re: Regex, minLength: int, maxLength: int, low: nat, high: nat)
    requires Total(re) && minLength <= maxLength + 1
    requires low < high && !Reaches(re, minLength, low) && Reaches(re, minLength, high)
    ensures IsLeast(re, minLength, Bisect(re, minLength, maxLength, low, high))
    ensures Bisect(re, minLength, maxLength, low, high) <= high
    decreases high - low
  {
    hide Reaches, LengthAt, Total;
    if low + 1 < high {
      var middle := (low + high) / 2;
      SameThreshold(re, minLength, maxLength, middle);
      if Reaches(re, minLength, middle) { BisectLeast(re, minLength, maxLength, low, middle); } else { BisectLeast(re, minLength, maxLength, middle, high); }
    } else {
      forall k: nat | k < high ensures !Reaches(re, minLength, k) {
        if Reaches(re, minLength, k) { ReachesLater(re, minLength, k, low); }
      }
    }
  }

  predicate IsPower(n: nat) {
    n in {1, 2, 4, 8, 16, 32, 64, 128, 256, 512, 1024, 2048, 4096, 8192, 16384, 32768, 65536}
  }

  lemma {:induction false} DoubleFinds(re: Regex, minLength: int, maxLength: int, low: nat, high: nat)
    requires Total(re) && minLength <= maxLength + 1
    requires low < high && !Reaches(re, minLength, low) && IsPower(high)
    ensures match Double(re, minLength, maxLength, low, high)
            case Some(r) => !Reaches(re, minLength, r.low) && Reaches(re, minLength, r.high) && r.high <= MAX_GENERATED_LENGTH
            case None => !Reaches(re, minLength, MAX_GENERATED_LENGTH)
    decreases 2 * MAX_GENERATED_LENGTH - high
  {
    hide Reaches, LengthAt, At, Total;
    SameThreshold(re, minLength, maxLength, high);
    if !Reaches(re, minLength, high) && high < MAX_GENERATED_LENGTH {
      DoubleFinds(re, minLength, maxLength, high, high * 2);
    }
  }

  /** Doubling and bisection end at the least count that reaches the minimum, and fail only when none up to the cap does. */
  lemma CountIsLeast(re: Regex, minLength: int, maxLength: int)
    requires Total(re) && minLength <= maxLength + 1
    ensures Count(re, minLength, maxLength).Some? <==> Reaches(re, minLength, MAX_GENERATED_LENGTH)
    ensures Count(re, minLength, maxLength).Some? ==> IsLeast(re, minLength, Count(re, minLength, maxLength).value)
  {
    hide Reaches, LengthAt, At, Total, Double, Bisect;
    SameThreshold(re, minLength, maxLength, 0);
    if Reaches(re, minLength, 0) {
      ReachesLater(re, minLength, 0, MAX_GENERATED_LENGTH);
    } else {
      DoubleFinds(re, minLength, maxLength, 0, 1);
      var r := Double(re, minLength, maxLength, 0, 1);
      if r.Some? {
        BisectLeast(re, minLength, maxLength, r.value.low, r.value.high);
        ReachesLater(re, minLength, r.value.high, MAX_GENERATED_LENGTH);
      }
    }
  }

  /** A sample within the maximum was not cut. */
  lemma AtIsFull(re: Regex, n: nat, maxLength: int)
    requires WellFormed(re) && At(re, n, maxLength).Some? && |At(re, n, maxLength).value| <= maxLength
    ensures Full(re, n) == At(re, n, maxLength)
  {
    hide Write, Full, WellFormed, AnchorFree, Matches;
    SampleSound(re, n, maxLength + 1);
  }

  lemma {:induction false} TryMeaning(re: Regex, fullMatch: string -> bool, minLength: int, maxLength: int, repeat: nat, attempt: nat)
    requires WellFormed(re) && attempt <= MAX_ATTEMPTS && Try(re, fullMatch, minLength, maxLength, repeat, attempt).Some?
    ensures var v := Try(re, fullMatch, minLength, maxLength, repeat, attempt).value; minLength <= |v| <= maxLength && fullMatch(v)
    ensures exists n :: repeat + attempt <= n < repeat + MAX_ATTEMPTS && Full(re, n) == Try(re, fullMatch, minLength, maxLength, repeat, attempt)
    decreases MAX_ATTEMPTS - attempt
  {
    hide At, Full, WellFormed;
    var v := At(re, repeat + attempt, maxLength).value;
    AtIsFull(re, repeat + attempt, maxLength);
    if !(|v| >= minLength && fullMatch(v)) { TryMeaning(re, fullMatch, minLength, maxLength, repeat, attempt + 1); }
  }

  /** Whatever the pattern, a sample found is a full sample of the right length that matches, in its language if anchor-free. */
  lemma FoundSound(re: Regex, fullMatch: string -> bool, minLength: int, maxLength: int)
    requires WellFormed(re) && Found(re, fullMatch, minLength, maxLength).Some?
    ensures var v := Found(re, fullMatch, minLength, maxLength).value; minLength <= |v| <= maxLength && fullMatch(v)
    ensures AnchorFree(re) ==> Matches(re, Found(re, fullMatch, minLength, maxLength).value)
  {
    hide Try, Count, Full, WellFormed, AnchorFree, Matches;
    var repeat := Count(re, minLength, maxLength).value;
    TryMeaning(re, fullMatch, minLength, maxLength, repeat, 0);
    var n :| repeat <= n < repeat + MAX_ATTEMPTS && Full(re, n) == Try(re, fullMatch, minLength, maxLength, repeat, 0);
    if AnchorFree(re) { FullMatches(re, n); }
  }

  /**
   For an anchor-free pattern whose parts all have samples, the search succeeds
   exactly when some count up to the cap is long enough and the least one's
   sample is not too long, and then returns that sample.
   */
  lemma FoundComplete(re: Regex, fullMatch: string -> bool, minLength: int, maxLength: int)
    requires WellFormed(re) && Total(re) && AnchorFree(re)
    requires forall s :: Matches(re, s) ==> fullMatch(s)
    ensures Found(re, fullMatch, minLength, maxLength).Some? <==>
            exists n :: 0 <= n <= MAX_GENERATED_LENGTH && IsLeast(re, minLength, n) && |Full(re, n).value| <= maxLength
    ensures forall n :: 0 <= n <= MAX_GENERATED_LENGTH && IsLeast(re, minLength, n) && |Full(re, n).value| <= maxLength ==>
            Found(re, fullMatch, minLength, maxLength) == Full(re, n)
  {
    hide Try, Count, Full, WellFormed, AnchorFree, Matches, Total;
    forall n | 0 <= n <= MAX_GENERATED_LENGTH && IsLeast(re, minLength, n) && |Full(re, n).value| <= maxLength
      ensures Found(re, fullMatch, minLength, maxLength) == Full(re, n)
    {
      ReachesLater(re, minLength, n, MAX_GENERATED_LENGTH);
      CountIsLeast(re, minLength, maxLength);
      assert Count(re, minLength, maxLength) == Some(n);
      FirstTry(re, fullMatch, minLength, maxLength, n);
    }
    if Found(re, fullMatch, minLength, maxLength).Some? {
      FoundSound(re, fullMatch, minLength, maxLength);
      CountIsLeast(re, minLength, maxLength);
      var n := Count(re, minLength, maxLength).value;
      TryNeedsFirst(re, fullMatch, minLength, maxLength, n);
    }
  }

  lemma FirstTry(re: Regex, fullMatch: string -> bool, minLength: int, maxLength: int, n: nat)
    requires WellFormed(re) && Total(re) && AnchorFree(re) && (forall s :: Matches(re, s) ==> fullMatch(s))
    requires Reaches(re, minLength, n) && |Full(re, n).value| <= maxLength
    ensures Try(re, fullMatch, minLength, maxLength, n, 0) == Full(re, n)
  {
    hide Full, Write, WellFormed, AnchorFree, Matches, Total;
    NotCut("", re, n, maxLength + 1);
    assert "" + Full(re, n).value == Full(re, n).value;
    FullMatches(re, n);
  }

  lemma TryNeedsFirst(re: Regex, fullMatch: string -> bool, minLength: int, maxLength: int, n: nat)
    requires WellFormed(re) && Try(re, fullMatch, minLength, maxLength, n, 0).Some?
    ensures Full(re, n).Some? && |Full(re, n).value| <= maxLength
  {
    hide Full, Write, WellFormed;
    SampleSound(re, n, maxLength + 1);
  }

  /** A part that stands for exactly one rune. */
  ghost predicate OneRune(re: Regex) {
    re.AnyChar? || re.AnyCharNotNL? || (re.CharClass? && re.ranges != []) || (re.Literal? && |re.runes| == 1)
  }

  /** The least number of repetitions, given none are asked for. */
  function Least(re: Regex): nat { if re.Plus? then 1 else if re.Repeat? then re.min else 0 }

  lemma OneRuneTotal(re: Regex)
    requires Unbounded(re) && OneRune(re.sub)
    ensures Total(re) && AnchorFree(re)
  {
    assert Total(re.sub) && AnchorFree(re.sub);
  }

  lemma OneRuneLength(re: Regex, n: nat)
    requires WellFormed(re) && Unbounded(re) && OneRune(re.sub)
    ensures Full(re, n).Some? && |Full(re, n).value| == if n < Least(re) then Least(re) else n
  {
    ExpandsToNearest(re, n);
    assert Full(re.sub, n).Some? && |Full(re.sub, n).value| == 1;
    hide Full;
    var c: nat :| Nearest(re, n, c) && Full(re, n) == CopiesOf(Full(re.sub, n), c);
    var high := if n < Least(re) then Least(re) else n;
    assert InBounds(re, high) && Distance(c, n) <= Distance(high, n);
    assert c == high;
    CopiesLength(Full(re.sub, n).value, c);
  }

  /**
   An unbounded repetition of a one-rune part has a sample at every minimum up to
   the cap that the maximum leaves room for: as many runes as the minimum asks
   for, or as the repetition needs.
   */
  lemma RepetitionFound(re: Regex, fullMatch: string -> bool, minLength: nat, maxLength: int)
    requires WellFormed(re) && Unbounded(re) && OneRune(re.sub) && (forall s :: Matches(re, s) ==> fullMatch(s))
    requires minLength <= MAX_GENERATED_LENGTH && minLength <= maxLength && Least(re) <= maxLength
    ensures Found(re, fullMatch, minLength, maxLength).Some?
    ensures |Found(re, fullMatch, minLength, maxLength).value| == if minLength < Least(re) then Least(re) else minLength
  {
    OneRuneTotal(re);
    hide Total, AnchorFree;
    var n := if minLength <= Least(re) then 0 else minLength;
    forall k: nat ensures Full(re, k).Some? && |Full(re, k).value| == if k < Least(re) then Least(re) else k { OneRuneLength(re, k); }
    hide Full, Found, Matches, WellFormed;
    assert IsLeast(re, minLength, n);
    FoundComplete(re, fullMatch, minLength, maxLength);
  }

  /** The sample at an attempt is taken. */
  ghost predicate Taken(re: Regex, fullMatch: string -> bool, minLength: int, maxLength: int, repeat: nat, a: nat) {
    At(re, repeat + a, maxLength).Some? && minLength <= |At(re, repeat + a, maxLength).value| <= maxLength && fullMatch(At(re, repeat + a, maxLength).value)
  }

  /** The sample at an attempt is passed over for the next one. */
  ghost predicate Passed(re: Regex, fullMatch: string -> bool, minLength: int, maxLength: int, repeat: nat, a: nat) {
    && At(re, repeat + a, maxLength).Some? && |At(re, repeat + a, maxLength).value| <= maxLength
    && !(minLength <= |At(re, repeat + a, maxLength).value| && fullMatch(At(re, repeat + a, maxLength).value))
  }

  lemma {:induction false} TryFrom(re: Regex, fullMatch: string -> bool, minLength: int, maxLength: int, repeat: nat, attempt: nat, a: nat)
    requires attempt <= a < 4 && Taken(re, fullMatch, minLength, maxLength, repeat, a)
    requires forall b :: attempt <= b < a ==> Passed(re, fullMatch, minLength, maxLength, repeat, b)
    ensures Try(re, fullMatch, minLength, maxLength, repeat, attempt) == At(re, repeat + a, maxLength)
    decreases 4 - attempt
  {
    hide At;
    if attempt < a {
      assert Passed(re, fullMatch, minLength, maxLength, repeat, attempt);
      TryFrom(re, fullMatch, minLength, maxLength, repeat, attempt + 1, a);
    }
  }

  lemma {:induction false} TryTaken(re: Regex, fullMatch: string -> bool, minLength: int, maxLength: int, repeat: nat, attempt: nat) returns (a: nat)
    requires attempt <= 4 && Try(re, fullMatch, minLength, maxLength, repeat, attempt).Some?
    ensures attempt <= a < 4 && Taken(re, fullMatch, minLength, maxLength, repeat, a)
    ensures forall b :: attempt <= b < a ==> Passed(re, fullMatch, minLength, maxLength, repeat, b)
    decreases 4 - attempt
  {
    hide At;
    a := attempt;
    if !Taken(re, fullMatch, minLength, maxLength, repeat, attempt) {
      a := TryTaken(re, fullMatch, minLength, maxLength, repeat, attempt + 1);
    }
  }

  /** One of four successive counts is taken, the earlier ones being passed over. */
  ghost predicate TakenAfter(re: Regex, fullMatch: string -> bool, minLength: int, maxLength: int, repeat: nat, a: nat) {
    && a < 4 && Taken(re, fullMatch, minLength, maxLength, repeat, a)
    && forall b :: 0 <= b < a ==> Passed(re, fullMatch, minLength, maxLength, repeat, b)
  }

  /** Whatever the pattern, the search takes the first of four successive counts whose sample fits and matches, unless an earlier one fails or is too long. */
  lemma FoundAtAttempt(re: Regex, fullMatch: string -> bool, minLength: int, maxLength: int)
    requires Count(re, minLength, maxLength).Some?
    ensures var repeat := Count(re, minLength, maxLength).value; var found := Found(re, fullMatch, minLength, maxLength);
      && (found.Some? <==> exists a :: TakenAfter(re, fullMatch, minLength, maxLength, repeat, a))
      && (forall a :: TakenAfter(re, fullMatch, minLength, maxLength, repeat, a) ==> found == At(re, repeat + a, maxLength))
  {
    hide At, Count, Try;
    var repeat := Count(re, minLength, maxLength).value;
    forall a | TakenAfter(re, fullMatch, minLength, maxLength, repeat, a) ensures Found(re, fullMatch, minLength, maxLength) == At(re, repeat + a, maxLength) {
      TryFrom(re, fullMatch, minLength, maxLength, repeat, 0, a);
    }
    if Found(re, fullMatch, minLength, maxLength).Some? {
      var a := TryTaken(re, fullMatch, minLength, maxLength, repeat, 0);
      assert TakenAfter(re, fullMatch, minLength, maxLength, repeat, a);
    }
  }
}
