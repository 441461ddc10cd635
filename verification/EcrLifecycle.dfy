/**
 The ECR lifecycle engine: a policy's rules claim images in priority order, an
 image belonging to at most one rule.

 Times are nanoseconds on the UTC clock, where a calendar day is 24 hours.
 */
module EcrLifecycle {
  import opened Sorting
  import opened Filtering

  const DAY := 86_400_000_000_000
  const MAX_LIFECYCLE_RULES := 100

  const TAGGED := "tagged"
  const UNTAGGED := "untagged"
  const ANY := "any"
  const IMAGE_COUNT_MORE_THAN := "imageCountMoreThan"
  const SINCE_IMAGE_PUSHED := "sinceImagePushed"
  const DAYS := "days"
  const EXPIRE := "expire"

  datatype Selection = Selection(tagStatus: string, tagPrefixList: seq<string>, countType: string, countUnit: string, countNumber: int)

  datatype Rule = Rule(priority: int, description: string, selection: Selection, action: string)

  datatype Image = Image(digest: string, tags: seq<string>, pushedAt: int)

  datatype Expiry = Expiry(digest: string, tags: seq<string>, pushedAt: int, priority: int)

  datatype Outcome = InvalidPolicy | Expiries(expiries: seq<Expiry>)

  // Policy validation.

  predicate ValidSelection(sel: Selection) {
    && sel.tagStatus in {TAGGED, UNTAGGED, ANY}
    && (sel.tagStatus == TAGGED <==> sel.tagPrefixList != [])
    && sel.countNumber >= 1
    && sel.countType in {SINCE_IMAGE_PUSHED, IMAGE_COUNT_MORE_THAN}
    && sel.countUnit == (if sel.countType == SINCE_IMAGE_PUSHED then DAYS else "")
  }

  /** Prefixes come with the tagged status and with no other, the count is positive, and days go with age and with nothing else. */
  lemma SelectionMeaning(sel: Selection)
    ensures ValidSelection(sel) <==>
      ((sel.tagStatus == "tagged" && |sel.tagPrefixList| > 0) || (sel.tagStatus in {"untagged", "any"} && |sel.tagPrefixList| == 0))
      && sel.countNumber >= 1
      && ((sel.countType == "sinceImagePushed" && sel.countUnit == "days") || (sel.countType == "imageCountMoreThan" && sel.countUnit == ""))
  {
  }

  predicate DistinctPriorities(rules: seq<Rule>) {
    forall i, j :: 0 <= i < j < |rules| ==> rules[i].priority != rules[j].priority
  }

  /** A document the engine evaluates: 1 to 100 well-formed rules, no two of the same priority. */
  predicate ValidPolicy(rules: seq<Rule>) {
    && 1 <= |rules| <= MAX_LIFECYCLE_RULES
    && DistinctPriorities(rules)
    && forall i :: 0 <= i < |rules| ==> rules[i].priority >= 1 && ValidSelection(rules[i].selection) && rules[i].action == EXPIRE
  }

  method ValidateRule(rule: Rule, seen: set<int>) returns (ok: bool, seen': set<int>)
    ensures ok <==> rule.priority >= 1 && rule.priority !in seen && ValidSelection(rule.selection) && rule.action == EXPIRE
    ensures ok ==> seen' == seen + {rule.priority}
  {
    if rule.priority < 1 || rule.priority in seen { return false, seen; }
    seen' := seen + {rule.priority};
    var sel := rule.selection;
    if sel.tagStatus == TAGGED {
      if |sel.tagPrefixList| == 0 { return false, seen'; }
    } else if sel.tagStatus == UNTAGGED || sel.tagStatus == ANY {
      if |sel.tagPrefixList| > 0 { return false, seen'; }
    } else {
      return false, seen';
    }
    if sel.countNumber < 1 { return false, seen'; }
    if sel.countType == SINCE_IMAGE_PUSHED {
      if sel.countUnit != DAYS { return false, seen'; }
    } else if sel.countType == IMAGE_COUNT_MORE_THAN {
      if sel.countUnit != "" { return false, seen'; }
    } else {
      return false, seen';
    }
    return rule.action == EXPIRE, seen';
  }

  method ValidatePolicy(rules: seq<Rule>) returns (ok: bool)
    ensures ok <==> ValidPolicy(rules)
  {
    if |rules| == 0 || |rules| > MAX_LIFECYCLE_RULES { return false; }
    var seen: set<int> := {};
    for i := 0 to |rules|
      invariant seen == set j | 0 <= j < i :: rules[j].priority
      invariant forall j, k :: 0 <= j < k < i ==> rules[j].priority != rules[k].priority
      invariant forall j :: 0 <= j < i ==> rules[j].priority >= 1 && ValidSelection(rules[j].selection) && rules[j].action == EXPIRE
    {
      ok, seen := ValidateRule(rules[i], seen);
      if !ok { return; }
    }
    ok := true;
  }

  // Selection.

  predicate Matches(img: Image, sel: Selection) {
    if sel.tagStatus == UNTAGGED then img.tags == []
    else if sel.tagStatus == ANY then true
    else if sel.tagStatus == TAGGED then
      exists t, p :: t in img.tags && p in sel.tagPrefixList && p <= t
    else false
  }

  function Cutoff(now: int, days: int): int { now - days * DAY }

  predicate Newer(a: Image, b: Image) {
    a.pushedAt > b.pushedAt || (a.pushedAt == b.pushedAt && StringLess(a.digest, b.digest))
  }

  predicate Before(a: Rule, b: Rule) { a.priority < b.priority }

  function Eligible(claimed: set<string>, sel: Selection): Image -> bool {
    (img: Image) => img.digest !in claimed && Matches(img, sel)
  }

  function Older(cutoff: int): Image -> bool { (img: Image) => img.pushedAt < cutoff }

  function ToExpire(selected: seq<Image>, sel: Selection, now: int): seq<Image>
    requires sel.countNumber >= 1
  {
    if sel.countType == SINCE_IMAGE_PUSHED then Filter(Older(Cutoff(now, sel.countNumber)), selected)
    else if sel.countType == IMAGE_COUNT_MORE_THAN then
      if |selected| <= sel.countNumber then [] else selected[sel.countNumber..]
    else []
  }

  method ExpireFromSelection(selected: seq<Image>, sel: Selection, now: int) returns (expire: seq<Image>)
    requires sel.countNumber >= 1
    ensures expire == ToExpire(selected, sel, now)
  {
    expire := [];
    if sel.countType == SINCE_IMAGE_PUSHED {
      var cutoff := Cutoff(now, sel.countNumber);
      for i := 0 to |selected|
        invariant expire == Filter(Older(cutoff), selected[..i])
      {
        assert selected[..i + 1][..i] == selected[..i];
        if selected[i].pushedAt < cutoff { expire := expire + [selected[i]]; }
      }
      assert selected[..|selected|] == selected;
    } else if sel.countType == IMAGE_COUNT_MORE_THAN {
      if |selected| > sel.countNumber { expire := selected[sel.countNumber..]; }
    }
  }

  // Evaluation.

  function Annotate(images: seq<Image>, priority: int): seq<Expiry> {
    seq(|images|, i requires 0 <= i < |images| => Expiry(images[i].digest, images[i].tags, images[i].pushedAt, priority))
  }

  function Digests(out: seq<Expiry>): set<string> { set e | e in out :: e.digest }

  function ClaimsOf(rule: Rule, ordered: seq<Image>, claimed: set<string>, now: int): seq<Image>
    requires rule.selection.countNumber >= 1
  {
    ToExpire(Filter(Eligible(claimed, rule.selection), ordered), rule.selection, now)
  }

  /** What the first `k` rules expire, rule by rule, each rule seeing what the earlier ones left. */
  function Claims(rules: seq<Rule>, ordered: seq<Image>, now: int, k: nat): seq<Expiry>
    requires k <= |rules|
    requires forall r :: r in rules ==> r.selection.countNumber >= 1
  {
    if k == 0 then []
    else
      var earlier := Claims(rules, ordered, now, k - 1);
      earlier + Annotate(ClaimsOf(rules[k - 1], ordered, Digests(earlier), now), rules[k - 1].priority)
  }

  function Evaluated(rules: seq<Rule>, images: seq<Image>, now: int): seq<Expiry>
    requires ValidPolicy(rules)
  {
    var inOrder := Sort(Before, rules);
    MultisetMember(inOrder, rules);
    Claims(inOrder, Sort(Newer, images), now, |inOrder|)
  }

  method SelectImages(ordered: seq<Image>, claimed: set<string>, sel: Selection) returns (selected: seq<Image>)
    ensures selected == Filter(Eligible(claimed, sel), ordered)
  {
    selected := [];
    for i := 0 to |ordered|
      invariant selected == Filter(Eligible(claimed, sel), ordered[..i])
    {
      assert ordered[..i + 1][..i] == ordered[..i];
      if ordered[i].digest !in claimed && Matches(ordered[i], sel) {
        selected := selected + [ordered[i]];
      }
    }
    assert ordered[..|ordered|] == ordered;
  }

  method Claim(expire: seq<Image>, priority: int, earlier: seq<Expiry>, claimedBefore: set<string>) returns (out: seq<Expiry>, claimed: set<string>)
    requires claimedBefore == Digests(earlier)
    ensures out == earlier + Annotate(expire, priority)
    ensures claimed == Digests(out)
  {
    out, claimed := earlier, claimedBefore;
    for i := 0 to |expire|
      invariant out == earlier + Annotate(expire[..i], priority)
      invariant claimed == Digests(out)
    {
      var img := expire[i];
      claimed := claimed + {img.digest};
      out := out + [Expiry(img.digest, img.tags, img.pushedAt, priority)];
      assert Annotate(expire[..i + 1], priority) == Annotate(expire[..i], priority) + [out[|out| - 1]];
    }
    assert expire[..|expire|] == expire;
  }

  method ClaimInOrder(rules: seq<Rule>, ordered: seq<Image>, now: int) returns (out: seq<Expiry>)
    requires forall r :: r in rules ==> r.selection.countNumber >= 1
    ensures out == Claims(rules, ordered, now, |rules|)
  {
    var claimed: set<string> := {};
    out := [];
    for k := 0 to |rules|
      invariant out == Claims(rules, ordered, now, k)
      invariant claimed == Digests(out)
    {
      var selected := SelectImages(ordered, claimed, rules[k].selection);
      var expire := ExpireFromSelection(selected, rules[k].selection, now);
      out, claimed := Claim(expire, rules[k].priority, out, claimed);
    }
  }

  method EvaluateLifecyclePolicy(rules: seq<Rule>, images: seq<Image>, now: int) returns (outcome: Outcome)
    ensures outcome == if ValidPolicy(rules) then Expiries(Evaluated(rules, images, now)) else InvalidPolicy
  {
    var ok := ValidatePolicy(rules);
    if !ok { return InvalidPolicy; }
    var inOrder := Sort(Before, rules);
    MultisetMember(inOrder, rules);
    var out := ClaimInOrder(inOrder, Sort(Newer, images), now);
    return Expiries(out);
  }

  // Meaning: a definition over the set of images and the set of rules, with no order and no sorting.

  /** The image is in the rule's tag scope. */
  ghost predicate InScope(img: Image, sel: Selection) {
    || sel.tagStatus == "any"
    || (sel.tagStatus == "untagged" && |img.tags| == 0)
    || (sel.tagStatus == "tagged" && exists i, j :: 0 <= i < |img.tags| && 0 <= j < |sel.tagPrefixList| && sel.tagPrefixList[j] <= img.tags[i])
  }

  /** `a` was pushed later than `b`, or at the same time under a smaller digest. */
  ghost predicate Ahead(a: Image, b: Image) {
    b.pushedAt < a.pushedAt || (a.pushedAt == b.pushedAt && StringLess(a.digest, b.digest))
  }

  /** `r` expires `img`: no rule of a lower priority number claims it, it matches, and it is over age or has enough rivals ahead of it. */
  ghost predicate Expires(rules: set<Rule>, images: set<Image>, now: int, img: Image, r: Rule)
    decreases r.priority, 1
  {
    && img in images && r in rules
    && InScope(img, r.selection)
    && Unclaimed(rules, images, now, img, r)
    && if r.selection.countType == "sinceImagePushed"
       then img.pushedAt < now - r.selection.countNumber * 24 * 3600 * 1_000_000_000
       else |Rivals(rules, images, now, img, r)| >= r.selection.countNumber
  }

  ghost predicate Unclaimed(rules: set<Rule>, images: set<Image>, now: int, img: Image, r: Rule)
    decreases r.priority, 0
  {
    forall q :: q in rules && 0 < q.priority < r.priority ==> !Expires(rules, images, now, img, q)
  }

  /** The images competing with `img` for a place under `r` that come before it. */
  ghost function Rivals(rules: set<Rule>, images: set<Image>, now: int, img: Image, r: Rule): set<Image>
    decreases r.priority, 0
  {
    set o | o in images && InScope(o, r.selection) && Ahead(o, img)
            && forall q :: q in rules && 0 < q.priority < r.priority ==> !Expires(rules, images, now, o, q)
  }

  lemma MatchesMeaning(img: Image, sel: Selection)
    ensures Matches(img, sel) <==> InScope(img, sel)
  {
    if sel.tagStatus == TAGGED {
      if Matches(img, sel) {
        var t, p :| t in img.tags && p in sel.tagPrefixList && p <= t;
        var i :| 0 <= i < |img.tags| && img.tags[i] == t;
        var j :| 0 <= j < |sel.tagPrefixList| && sel.tagPrefixList[j] == p;
        assert sel.tagPrefixList[j] <= img.tags[i];
      }
      if i, j :| 0 <= i < |img.tags| && 0 <= j < |sel.tagPrefixList| && sel.tagPrefixList[j] <= img.tags[i] {
        assert img.tags[i] in img.tags && sel.tagPrefixList[j] in sel.tagPrefixList;
      }
    }
  }

  ghost predicate DistinctDigests(images: seq<Image>) {
    forall i, j :: 0 <= i < j < |images| ==> images[i].digest != images[j].digest
  }

  function AsExpiry(img: Image, r: Rule): Expiry { Expiry(img.digest, img.tags, img.pushedAt, r.priority) }

  lemma NewerStrict()
    ensures StrictWeak(Newer)
  {
    StringLessStrict();
  }

  lemma SortRules(rules: seq<Rule>)
    requires DistinctPriorities(rules)
    ensures StrictlySortedBy(Before, Sort(Before, rules))
    ensures DistinctPriorities(Sort(Before, rules))
  {
    var r := Sort(Before, rules);
    SortSorted(Before, rules);
    DistinctKept(rules, r, (x: Rule) => x.priority);
  }

  lemma SortImages(images: seq<Image>)
    requires DistinctDigests(images)
    ensures StrictlySortedBy(Newer, Sort(Newer, images))
    ensures DistinctDigests(Sort(Newer, images))
  {
    var s := Sort(Newer, images);
    NewerStrict();
    SortSorted(Newer, images);
    DistinctKept(images, s, (x: Image) => x.digest);
    forall i, j | 0 <= i < j < |s| ensures Newer(s[i], s[j]) {
      StringLessTotal(s[i].digest, s[j].digest);
    }
  }

  ghost function Elements<T>(s: seq<T>): set<T> { set x | x in s }

  /** Rules and images as the engine walks them. */
  ghost predicate Ready(rules: seq<Rule>, ordered: seq<Image>) {
    && StrictlySortedBy(Before, rules)
    && (forall r :: r in rules ==> r.priority >= 1 && ValidSelection(r.selection))
    && StrictlySortedBy(Newer, ordered)
    && DistinctDigests(ordered)
  }

  /** `claimed` holds the digests of exactly the images an earlier rule expires. */
  ghost predicate ClaimedBefore(rules: seq<Rule>, ordered: seq<Image>, now: int, claimed: set<string>, r: Rule) {
    forall o :: o in ordered ==> (o.digest !in claimed <==> Unclaimed(Elements(rules), Elements(ordered), now, o, r))
  }

  lemma NewerAsymmetric()
    ensures forall x, y :: !(Newer(x, y) && Newer(y, x))
  {
    StringLessStrict();
  }

  /** A count rule keeps the first `countNumber` of its selection: the rest are those with that many rivals. */
  lemma CountMeaning(selected: seq<Image>, n: nat, img: Image)
    requires StrictlySortedBy(Newer, selected) && img in selected
    ensures img in (if |selected| <= n then [] else selected[n..]) <==> |Below(Newer, selected, img)| >= n
  {
    NewerAsymmetric();
    var i :| 0 <= i < |selected| && selected[i] == img;
    RankIsIndex(Newer, selected, i);
    if |selected| > n && img in selected[n..] {
      var j :| 0 <= j < |selected[n..]| && selected[n..][j] == img;
      assert selected[n + j] == img;
      RankIsIndex(Newer, selected, n + j);
    }
    if i >= n { assert selected[n..][i - n] == img; }
  }

  lemma ClaimsOfMeaning(rules: seq<Rule>, ordered: seq<Image>, now: int, claimed: set<string>, r: Rule, img: Image)
    requires Ready(rules, ordered) && r in rules && img in ordered
    requires ClaimedBefore(rules, ordered, now, claimed, r)
    ensures img in ClaimsOf(r, ordered, claimed, now) <==> Expires(Elements(rules), Elements(ordered), now, img, r)
  {
    var eligible := Eligible(claimed, r.selection);
    var selected := Filter(eligible, ordered);
    FilterMember(eligible, ordered);
    forall o ensures Matches(o, r.selection) <==> InScope(o, r.selection) { MatchesMeaning(o, r.selection); }
    hide Matches, InScope;
    if r.selection.countType == SINCE_IMAGE_PUSHED {
      FilterMember(Older(Cutoff(now, r.selection.countNumber)), selected);
    } else if img in selected {
      FilterSorted(eligible, Newer, ordered);
      CountMeaning(selected, r.selection.countNumber, img);
      assert Below(Newer, selected, img) == Rivals(Elements(rules), Elements(ordered), now, img, r);
    }
  }

  ghost function Verdict(rules: seq<Rule>, ordered: seq<Image>, now: int): (Image, Rule) -> bool {
    (img: Image, r: Rule) => Expires(Elements(rules), Elements(ordered), now, img, r)
  }

  /** The list `out` of the first `k` rules says what `verdict` says. */
  ghost predicate Meant(rules: seq<Rule>, ordered: seq<Image>, verdict: (Image, Rule) -> bool, k: nat, out: seq<Expiry>)
    requires k <= |rules|
  {
    && (forall e :: e in out ==> exists img, j :: img in ordered && 0 <= j < k && e == AsExpiry(img, rules[j]))
    && (forall img, j :: img in ordered && 0 <= j < k ==> (AsExpiry(img, rules[j]) in out <==> verdict(img, rules[j])))
  }

  lemma MeantClaims(rules: seq<Rule>, ordered: seq<Image>, verdict: (Image, Rule) -> bool, k: nat, out: seq<Expiry>, o: Image) returns (j: nat)
    requires DistinctDigests(ordered) && k <= |rules| && Meant(rules, ordered, verdict, k, out)
    requires o in ordered && o.digest in Digests(out)
    ensures j < k && verdict(o, rules[j])
  {
    var e :| e in out && e.digest == o.digest;
    var img, i :| img in ordered && 0 <= i < k && e == AsExpiry(img, rules[i]);
    assert img == o;
    j := i;
  }

  lemma MeantLeaves(rules: seq<Rule>, ordered: seq<Image>, verdict: (Image, Rule) -> bool, k: nat, out: seq<Expiry>, o: Image, q: Rule)
    requires StrictlySortedBy(Before, rules) && k < |rules| && Meant(rules, ordered, verdict, k, out)
    requires o in ordered && o.digest !in Digests(out) && q in rules && q.priority < rules[k].priority
    ensures !verdict(o, q)
  {
    var j :| 0 <= j < |rules| && rules[j] == q;
    assert j < k;
    assert AsExpiry(o, rules[j]) !in out;
  }

  lemma MeantClaimed(rules: seq<Rule>, ordered: seq<Image>, now: int, k: nat, out: seq<Expiry>)
    requires Ready(rules, ordered) && k < |rules| && Meant(rules, ordered, Verdict(rules, ordered, now), k, out)
    ensures ClaimedBefore(rules, ordered, now, Digests(out), rules[k])
  {
    forall o | o in ordered
      ensures o.digest !in Digests(out) <==> Unclaimed(Elements(rules), Elements(ordered), now, o, rules[k])
    {
      if o.digest in Digests(out) {
        var j := MeantClaims(rules, ordered, Verdict(rules, ordered, now), k, out, o);
        assert Before(rules[j], rules[k]);
        assert Expires(Elements(rules), Elements(ordered), now, o, rules[j]);
      } else {
        forall q | q in Elements(rules) && 0 < q.priority < rules[k].priority
          ensures !Expires(Elements(rules), Elements(ordered), now, o, q)
        {
          MeantLeaves(rules, ordered, Verdict(rules, ordered, now), k, out, o, q);
        }
      }
    }
  }

  lemma ClaimsOfFromOrdered(rule: Rule, ordered: seq<Image>, claimed: set<string>, now: int)
    requires rule.selection.countNumber >= 1
    ensures forall img :: img in ClaimsOf(rule, ordered, claimed, now) ==> img in ordered
  {
    var eligible := Eligible(claimed, rule.selection);
    FilterMember(eligible, ordered);
    FilterMember(Older(Cutoff(now, rule.selection.countNumber)), Filter(eligible, ordered));
  }

  lemma AnnotateMember(images: seq<Image>, priority: int, img: Image)
    ensures img in images ==> Expiry(img.digest, img.tags, img.pushedAt, priority) in Annotate(images, priority)
    ensures Expiry(img.digest, img.tags, img.pushedAt, priority) in Annotate(images, priority) ==> img in images
  {
    var e := Expiry(img.digest, img.tags, img.pushedAt, priority);
    if img in images {
      var i :| 0 <= i < |images| && images[i] == img;
      assert Annotate(images, priority)[i] == e;
    }
    if e in Annotate(images, priority) {
      var i :| 0 <= i < |images| && Annotate(images, priority)[i] == e;
      assert images[i] == img;
    }
  }

  lemma MeantStep(rules: seq<Rule>, ordered: seq<Image>, verdict: (Image, Rule) -> bool, k: nat, earlier: seq<Expiry>, claims: seq<Image>)
    requires StrictlySortedBy(Before, rules) && k < |rules| && Meant(rules, ordered, verdict, k, earlier)
    requires forall img :: img in claims ==> img in ordered
    requires forall img :: img in ordered ==> (img in claims <==> verdict(img, rules[k]))
    ensures Meant(rules, ordered, verdict, k + 1, earlier + Annotate(claims, rules[k].priority))
  {
    var r := rules[k];
    var latest := Annotate(claims, r.priority);
    forall e | e in earlier + latest
      ensures exists img, j :: img in ordered && 0 <= j < k + 1 && e == AsExpiry(img, rules[j])
    {
      if e in latest {
        var i :| 0 <= i < |claims| && latest[i] == e;
        assert claims[i] in ordered && e == AsExpiry(claims[i], rules[k]);
      }
    }
    forall img, j | img in ordered && 0 <= j < k + 1
      ensures AsExpiry(img, rules[j]) in earlier + latest <==> verdict(img, rules[j])
    {
      if j < k {
        assert Before(rules[j], rules[k]);
        assert AsExpiry(img, rules[j]) !in latest;
      } else {
        AnnotateMember(claims, r.priority, img);
        assert AsExpiry(img, r) !in earlier;
      }
    }
  }

  lemma ClaimsOfVerdict(rules: seq<Rule>, ordered: seq<Image>, now: int, claimed: set<string>, r: Rule)
    requires Ready(rules, ordered) && r in rules
    requires ClaimedBefore(rules, ordered, now, claimed, r)
    ensures forall img :: img in ordered ==> (img in ClaimsOf(r, ordered, claimed, now) <==> Verdict(rules, ordered, now)(img, r))
    ensures forall img :: img in ClaimsOf(r, ordered, claimed, now) ==> img in ordered
  {
    forall img | img in ordered
      ensures img in ClaimsOf(r, ordered, claimed, now) <==> Verdict(rules, ordered, now)(img, r)
    {
      ClaimsOfMeaning(rules, ordered, now, claimed, r, img);
    }
    ClaimsOfFromOrdered(r, ordered, claimed, now);
  }

  lemma MeantNext(rules: seq<Rule>, ordered: seq<Image>, now: int, k: nat)
    requires Ready(rules, ordered) && k < |rules|
    requires Meant(rules, ordered, Verdict(rules, ordered, now), k, Claims(rules, ordered, now, k))
    ensures Meant(rules, ordered, Verdict(rules, ordered, now), k + 1, Claims(rules, ordered, now, k + 1))
  {
    var earlier := Claims(rules, ordered, now, k);
    MeantClaimed(rules, ordered, now, k, earlier);
    ClaimsOfVerdict(rules, ordered, now, Digests(earlier), rules[k]);
    MeantStep(rules, ordered, Verdict(rules, ordered, now), k, earlier, ClaimsOf(rules[k], ordered, Digests(earlier), now));
  }

  lemma MeantNone(rules: seq<Rule>, ordered: seq<Image>, verdict: (Image, Rule) -> bool)
    ensures Meant(rules, ordered, verdict, 0, [])
  {
  }

  lemma {:induction false} ClaimsMeaning(rules: seq<Rule>, ordered: seq<Image>, now: int, k: nat)
    requires Ready(rules, ordered) && k <= |rules|
    ensures Meant(rules, ordered, Verdict(rules, ordered, now), k, Claims(rules, ordered, now, k))
  {
    hide Meant, Verdict, ClaimsOf;
    if k == 0 {
      MeantNone(rules, ordered, Verdict(rules, ordered, now));
    } else {
      ClaimsMeaning(rules, ordered, now, k - 1);
      MeantNext(rules, ordered, now, k - 1);
    }
  }

  lemma SortReady(rules: seq<Rule>, images: seq<Image>)
    requires ValidPolicy(rules) && DistinctDigests(images)
    ensures Ready(Sort(Before, rules), Sort(Newer, images))
    ensures Elements(Sort(Before, rules)) == Elements(rules) && Elements(Sort(Newer, images)) == Elements(images)
  {
    SortRules(rules);
    SortImages(images);
    MultisetMember(Sort(Before, rules), rules);
    MultisetMember(Sort(Newer, images), images);
  }

  lemma MeantAll(rules: seq<Rule>, ordered: seq<Image>, verdict: (Image, Rule) -> bool, out: seq<Expiry>)
    requires Meant(rules, ordered, verdict, |rules|, out)
    ensures forall img, r :: img in ordered && r in rules ==> (AsExpiry(img, r) in out <==> verdict(img, r))
    ensures forall e :: e in out ==> exists img, r :: img in ordered && r in rules && e == AsExpiry(img, r)
  {
    forall img, r | img in ordered && r in rules ensures AsExpiry(img, r) in out <==> verdict(img, r) {
      var j :| 0 <= j < |rules| && rules[j] == r;
    }
    forall e | e in out ensures exists img, r :: img in ordered && r in rules && e == AsExpiry(img, r) {
      var img, j :| img in ordered && 0 <= j < |rules| && e == AsExpiry(img, rules[j]);
      assert rules[j] in rules;
    }
  }

  /** The engine's list holds an image under a rule exactly when that rule expires it, and holds nothing else. */
  lemma EvaluationMeaning(rules: seq<Rule>, images: seq<Image>, now: int)
    requires ValidPolicy(rules) && DistinctDigests(images)
    ensures forall img, r :: img in images && r in rules ==>
              (AsExpiry(img, r) in Evaluated(rules, images, now) <==> Expires(Elements(rules), Elements(images), now, img, r))
    ensures forall e :: e in Evaluated(rules, images, now) ==> exists img, r :: img in images && r in rules && e == AsExpiry(img, r)
  {
    var inOrder, ordered := Sort(Before, rules), Sort(Newer, images);
    SortReady(rules, images);
    MultisetMember(inOrder, rules);
    MultisetMember(ordered, images);
    ClaimsMeaning(inOrder, ordered, now, |inOrder|);
    MeantAll(inOrder, ordered, Verdict(inOrder, ordered, now), Evaluated(rules, images, now));
    forall img, r | img in images && r in rules
      ensures AsExpiry(img, r) in Evaluated(rules, images, now) <==> Expires(Elements(rules), Elements(images), now, img, r)
    {
      assert Verdict(inOrder, ordered, now)(img, r) == Expires(Elements(rules), Elements(images), now, img, r);
    }
  }

  /** Presenting the same rules and images in another order changes nothing, not even the order of the result. */
  lemma EvaluationOrderIndependent(rules: seq<Rule>, rules': seq<Rule>, images: seq<Image>, images': seq<Image>, now: int)
    requires ValidPolicy(rules) && DistinctDigests(images)
    requires multiset(rules) == multiset(rules') && multiset(images) == multiset(images')
    ensures ValidPolicy(rules')
    ensures Evaluated(rules, images, now) == Evaluated(rules', images', now)
  {
    assert |rules| == |multiset(rules)| == |rules'|;
    DistinctKept(rules, rules', (x: Rule) => x.priority);
    DistinctKept(images, images', (x: Image) => x.digest);
    MultisetMember(rules, rules');
    forall i | 0 <= i < |rules'|
      ensures rules'[i].priority >= 1 && ValidSelection(rules'[i].selection) && rules'[i].action == EXPIRE
    {
      assert rules'[i] in rules;
    }
    SortRules(rules);
    SortRules(rules');
    SortImages(images);
    SortImages(images');
    NewerAsymmetric();
    StrictSortUnique(Before, Sort(Before, rules), Sort(Before, rules'));
    StrictSortUnique(Newer, Sort(Newer, images), Sort(Newer, images'));
  }

  // Shape of the result.

  function AsImage(e: Expiry): Image { Image(e.digest, e.tags, e.pushedAt) }

  /** Listed by rule, then by falling push time, then by digest, no digest twice. */
  ghost predicate Listed(out: seq<Expiry>) {
    forall i, j :: 0 <= i < j < |out| ==>
      && out[i].digest != out[j].digest
      && out[i].priority <= out[j].priority
      && (out[i].priority == out[j].priority ==>
            && out[j].pushedAt <= out[i].pushedAt
            && (out[j].pushedAt == out[i].pushedAt ==> StringLess(out[i].digest, out[j].digest)))
  }

  lemma ClaimsOfShape(rule: Rule, ordered: seq<Image>, claimed: set<string>, now: int)
    requires rule.selection.countNumber >= 1 && StrictlySortedBy(Newer, ordered) && DistinctDigests(ordered)
    ensures StrictlySortedBy(Newer, ClaimsOf(rule, ordered, claimed, now)) && DistinctDigests(ClaimsOf(rule, ordered, claimed, now))
    ensures forall img :: img in ClaimsOf(rule, ordered, claimed, now) ==> img.digest !in claimed
  {
    var eligible, older := Eligible(claimed, rule.selection), Older(Cutoff(now, rule.selection.countNumber));
    var selected := Filter(eligible, ordered);
    FilterMember(eligible, ordered);
    FilterSorted(eligible, Newer, ordered);
    FilterMember(older, selected);
    FilterSorted(older, Newer, selected);
    var claims := ClaimsOf(rule, ordered, claimed, now);
    ClaimsOfFromOrdered(rule, ordered, claimed, now);
    NewerAsymmetric();
    forall i, j | 0 <= i < j < |claims| ensures claims[i].digest != claims[j].digest {
      assert claims[i] in ordered && claims[j] in ordered && Newer(claims[i], claims[j]);
    }
  }

  lemma ListedAppend(earlier: seq<Expiry>, claims: seq<Image>, priority: int)
    requires Listed(earlier) && forall e :: e in earlier ==> e.priority < priority
    requires StrictlySortedBy(Newer, claims) && DistinctDigests(claims)
    requires forall img :: img in claims ==> img.digest !in Digests(earlier)
    ensures Listed(earlier + Annotate(claims, priority))
  {
    forall i | 0 <= i < |claims| ensures claims[i].digest !in Digests(earlier) && AsImage(Annotate(claims, priority)[i]) == claims[i] {
      assert claims[i] in claims;
    }
  }

  lemma {:induction false} ClaimsPriorities(rules: seq<Rule>, ordered: seq<Image>, now: int, k: nat)
    requires Ready(rules, ordered) && k <= |rules|
    ensures forall e :: e in Claims(rules, ordered, now, k) ==> exists j :: 0 <= j < k && rules[j].priority == e.priority
  {
    hide ClaimsOf;
    if k > 0 { ClaimsPriorities(rules, ordered, now, k - 1); }
  }

  lemma NothingListed()
    ensures Listed([])
  {
  }

  lemma {:induction false} ClaimsListed(rules: seq<Rule>, ordered: seq<Image>, now: int, k: nat)
    requires Ready(rules, ordered) && k <= |rules|
    ensures Listed(Claims(rules, ordered, now, k))
  {
    hide ClaimsOf, Listed, Newer, Digests, Annotate;
    if k == 0 { NothingListed(); }
    if k > 0 {
      var earlier := Claims(rules, ordered, now, k - 1);
      ClaimsListed(rules, ordered, now, k - 1);
      ClaimsPriorities(rules, ordered, now, k - 1);
      ClaimsOfShape(rules[k - 1], ordered, Digests(earlier), now);
      forall e | e in earlier ensures e.priority < rules[k - 1].priority {
        var j :| 0 <= j < k - 1 && rules[j].priority == e.priority;
        assert Before(rules[j], rules[k - 1]);
      }
      ListedAppend(earlier, ClaimsOf(rules[k - 1], ordered, Digests(earlier), now), rules[k - 1].priority);
    }
  }

  /** The result lists each image once, by rule priority and within a rule newest first. */
  lemma EvaluationListed(rules: seq<Rule>, images: seq<Image>, now: int)
    requires ValidPolicy(rules) && DistinctDigests(images)
    ensures Listed(Evaluated(rules, images, now))
  {
    SortReady(rules, images);
    ClaimsListed(Sort(Before, rules), Sort(Newer, images), now, |Sort(Before, rules)|);
  }

  // What a count rule keeps.

  ghost predicate Expired(rules: seq<Rule>, images: seq<Image>, now: int, img: Image, r: Rule)
    requires ValidPolicy(rules)
  {
    Expiry(img.digest, img.tags, img.pushedAt, r.priority) in Evaluated(rules, images, now)
  }

  /** In the rule's scope and left by every rule of a lower priority number. */
  ghost predicate Competes(rules: seq<Rule>, images: seq<Image>, now: int, img: Image, r: Rule)
    requires ValidPolicy(rules)
  {
    img in images && InScope(img, r.selection) && forall q :: q in rules && q.priority < r.priority ==> !Expired(rules, images, now, img, q)
  }

  lemma RivalsGrow(rules: set<Rule>, images: set<Image>, now: int, r: Rule, a: Image, b: Image)
    requires Ahead(a, b)
    ensures |Rivals(rules, images, now, a, r)| <= |Rivals(rules, images, now, b, r)|
  {
    hide InScope, StringLess;
    assert StrictWeak(StringLess) by { StringLessStrict(); }
    assert Rivals(rules, images, now, a, r) <= Rivals(rules, images, now, b, r);
    SubsetSize(Rivals(rules, images, now, a, r), Rivals(rules, images, now, b, r));
  }

  lemma ExpiresBehind(rules: set<Rule>, images: set<Image>, now: int, r: Rule, a: Image, b: Image)
    requires r.selection.countType == "imageCountMoreThan" && Expires(rules, images, now, a, r) && Ahead(a, b)
    requires b in images && InScope(b, r.selection) && Unclaimed(rules, images, now, b, r)
    ensures Expires(rules, images, now, b, r)
  {
    hide InScope, Ahead, Unclaimed;
    RivalsGrow(rules, images, now, r, a, b);
    assert "imageCountMoreThan"[0] != "sinceImagePushed"[0];
  }

  lemma ExpiredMeaning(rules: seq<Rule>, images: seq<Image>, now: int, img: Image, r: Rule)
    requires ValidPolicy(rules) && DistinctDigests(images) && img in images && r in rules
    ensures Expired(rules, images, now, img, r) <==> Expires(Elements(rules), Elements(images), now, img, r)
  {
    hide Evaluated, Expires, ValidPolicy;
    EvaluationMeaning(rules, images, now);
    assert AsExpiry(img, r) in Evaluated(rules, images, now) <==> Expires(Elements(rules), Elements(images), now, img, r);
  }

  /** A count rule that expires an image expires every competing one pushed earlier, and of those pushed at the same time the ones with a larger digest. */
  lemma CountRuleKeepsNewest(rules: seq<Rule>, images: seq<Image>, now: int, r: Rule, a: Image, b: Image)
    requires ValidPolicy(rules) && DistinctDigests(images) && r in rules && r.selection.countType == "imageCountMoreThan"
    requires a in images && Expired(rules, images, now, a, r) && Competes(rules, images, now, b, r)
    requires b.pushedAt < a.pushedAt || (b.pushedAt == a.pushedAt && StringLess(a.digest, b.digest))
    ensures Expired(rules, images, now, b, r)
  {
    hide Evaluated, InScope, Expires, ValidPolicy, Expired;
    var R, I := Elements(rules), Elements(images);
    forall q | q in R && 0 < q.priority < r.priority ensures !Expires(R, I, now, b, q) { ExpiredMeaning(rules, images, now, b, q); }
    ExpiredMeaning(rules, images, now, a, r);
    ExpiredMeaning(rules, images, now, b, r);
    ExpiresBehind(R, I, now, r, a, b);
  }

  /** Under a count rule, of two competing images the one kept was not pushed before the one expired. */
  lemma KeptIsNotOlder(rules: seq<Rule>, images: seq<Image>, now: int, r: Rule, kept: Image, gone: Image)
    requires ValidPolicy(rules) && DistinctDigests(images) && r in rules && r.selection.countType == "imageCountMoreThan"
    requires gone in images && Expired(rules, images, now, gone, r)
    requires Competes(rules, images, now, kept, r) && !Expired(rules, images, now, kept, r)
    ensures kept.pushedAt >= gone.pushedAt && (kept.pushedAt == gone.pushedAt ==> !StringLess(gone.digest, kept.digest))
  {
    hide Expired, Competes, ValidPolicy;
    if kept.pushedAt < gone.pushedAt || (kept.pushedAt == gone.pushedAt && StringLess(gone.digest, kept.digest)) {
      CountRuleKeepsNewest(rules, images, now, r, gone, kept);
    }
  }

  // Fixpoint.

  ghost function Survivors(rules: set<Rule>, images: set<Image>, now: int): set<Image> {
    set img | img in images && forall r :: r in rules ==> !Expires(rules, images, now, img, r)
  }

  lemma SurvivorsStay(rules: set<Rule>, images: set<Image>, now: int, img: Image, r: Rule)
    ensures !Expires(rules, Survivors(rules, images, now), now, img, r)
  {
    var left := Survivors(rules, images, now);
    if Expires(rules, left, now, img, r) {
      assert !Expires(rules, images, now, img, r);
      assert Rivals(rules, left, now, img, r) <= Rivals(rules, images, now, img, r);
      SubsetSize(Rivals(rules, left, now, img, r), Rivals(rules, images, now, img, r));
    }
  }

  lemma {:induction false} SubsetSize<T>(a: set<T>, b: set<T>)
    requires a <= b
    ensures |a| <= |b|
  {
    assert b == a + (b - a);
  }

  /** Deleting everything a policy expires and evaluating it again at the same time expires nothing. */
  lemma EvaluationFixpoint(rules: seq<Rule>, images: seq<Image>, kept: seq<Image>, now: int)
    requires ValidPolicy(rules) && DistinctDigests(images) && DistinctDigests(kept)
    requires forall img :: img in kept <==> img in images && img.digest !in Digests(Evaluated(rules, images, now))
    ensures Evaluated(rules, kept, now) == []
  {
    hide Evaluated, Expires, ValidPolicy;
    EvaluationMeaning(rules, images, now);
    EvaluationMeaning(rules, kept, now);
    var R, I := Elements(rules), Elements(images);
    forall img ensures img in kept <==> img in Survivors(R, I, now) {
      if img in images {
        if img.digest in Digests(Evaluated(rules, images, now)) {
          var e :| e in Evaluated(rules, images, now) && e.digest == img.digest;
          var o, r :| o in images && r in rules && e == AsExpiry(o, r);
          assert o == img;
          assert Expires(R, I, now, img, r);
        } else {
          forall r | r in R ensures !Expires(R, I, now, img, r) {
            assert AsExpiry(img, r) !in Evaluated(rules, images, now);
          }
        }
      }
    }
    assert Elements(kept) == Survivors(R, I, now);
    if Evaluated(rules, kept, now) != [] {
      var e := Evaluated(rules, kept, now)[0];
      assert e in Evaluated(rules, kept, now);
      var img, r :| img in kept && r in rules && e == AsExpiry(img, r);
      SurvivorsStay(R, I, now, img, r);
    }
  }
}
