/**
 The keys of one account's bucket, where the records of all repositories lie side
 by side. Repository names may contain slashes, so the key of one repository can
 lie inside another's referrer index, or be the key of another's record.
 */
module EcrKeys {
  import opened Text
  import opened EcrReferrers

  datatype Kind =
    | MetaKind
    | PolicyKind
    | LifecycleKind
    | TagKind(tag: string)
    | ManifestKind(digest: string)
    | ReferrerKind(subject: string, referrer: string)

  function Tail(kind: Kind): string {
    match kind
    case MetaKind => "meta"
    case PolicyKind => "policy"
    case LifecycleKind => "lifecycle"
    case TagKind(tag) => "tags/" + tag
    case ManifestKind(d) => "manifests/" + DigestToken(d)
    case ReferrerKind(s, d) => "referrers/" + DigestToken(s) + "/" + DigestToken(d)
  }

  /** The key of a record of repository `r`. */
  function KeyOf(r: string, kind: Kind): string { "repos/" + Path(r, kind) }

  function Path(r: string, kind: Kind): string { r + "/" + Tail(kind) }

  predicate ValidKind(kind: Kind) {
    match kind case ManifestKind(d) => IsDigest(d) case ReferrerKind(s, d) => IsDigest(s) && IsDigest(d) case _ => true
  }

  lemma KeysAgree(repo: string, s: string, d: string)
    ensures ManifestKey(repo, d) == KeyOf(repo, ManifestKind(d))
    ensures ReferrerKey(repo, s, d) == KeyOf(repo, ReferrerKind(s, d))
  {
    hide DigestToken;
    assert "repos/" + (repo + "/" + ("manifests/" + DigestToken(d))) == "repos/" + repo + "/manifests/" + DigestToken(d);
    EntryAgrees(repo, DigestToken(s), DigestToken(d));
  }

  lemma EntryAgrees(repo: string, s: string, d: string)
    ensures "repos/" + (repo + "/" + ("referrers/" + s + "/" + d)) == "repos/" + repo + "/referrers/" + s + "/" + d
  {
    assert "referrers/" + s + "/" + d == "referrers/" + (s + "/" + d);
    assert "repos/" + repo + "/referrers/" + s + "/" + d == "repos/" + repo + "/referrers/" + (s + "/" + d);
    assert "repos/" + (repo + "/" + ("referrers/" + (s + "/" + d))) == "repos/" + repo + "/referrers/" + (s + "/" + d);
  }

  /** The repository name that spells the place of a subject's entries. */
  function Home(repo: string, subject: string): string { repo + "/referrers/" + DigestToken(subject) }

  /** `r` is that repository or one below it. */
  predicate Nested(r: string, repo: string, subject: string) {
    r == Home(repo, subject) || HasPrefix(r, Home(repo, subject) + "/")
  }

  /** `repo` is named below the tags of `r`, and the tag spells the rest of the way to the subject's entries. */
  predicate TagInside(r: string, kind: Kind, repo: string, subject: string) {
    && kind.TagKind? && HasPrefix(repo, r + "/tags")
    && HasPrefix("tags/" + kind.tag, Home(repo, subject)[|r| + 1..] + "/")
  }

  lemma SameFront(x: string, a: string, b: string)
    ensures HasPrefix(x + a, x + b) <==> HasPrefix(a, b)
  {
    assert (x + a)[|x|..] == a && (x + b)[|x|..] == b;
    assert |b| <= |a| ==> (x + a)[..|x + b|] == x + a[..|b|];
  }

  lemma PrefixCases(r: string, tail: string, home: string)
    ensures HasPrefix(r + "/" + tail, home + "/")
       <==> r == home || HasPrefix(r, home + "/") || (HasPrefix(home, r + "/") && HasPrefix(tail, home[|r| + 1..] + "/"))
  {
    var path, p := r + "/" + tail, home + "/";
    if |r| > |home| {
      assert path[..|p|] == r[..|p|];
    } else if |r| == |home| {
      assert path[..|p|] == r + "/";
      assert path[..|r|] == r && p[..|r|] == home;
    } else {
      assert p <= path ==> home[..|r| + 1] == p[..|r| + 1] == path[..|r| + 1] == r + "/";
      if HasPrefix(home, r + "/") {
        assert p == r + "/" + (home[|r| + 1..] + "/");
        SameFront(r + "/", tail, home[|r| + 1..] + "/");
      }
    }
  }

  /** A slash of a subject's home is one of `repo`, or one of the two around `referrers`. */
  lemma HomeSlashes(repo: string, subject: string, i: nat)
    requires IsDigest(subject) && i < |Home(repo, subject)|
    ensures Home(repo, subject)[i] == '/' ==> i <= |repo| || i == |repo| + 10
  {
    TokenPlain(subject);
    var middle := "/referrers/";
    if |repo| < i < |repo| + 10 {
      assert Home(repo, subject)[i] == middle[i - |repo|] == middle[1..10][i - |repo| - 1];
      assert '/' !in middle[1..10];
    } else if i > |repo| + 10 {
      assert Home(repo, subject)[i] == DigestToken(subject)[i - |repo| - 11];
    }
  }

  lemma TailSlashes(kind: Kind, i: nat)
    requires ValidKind(kind) && i < |Tail(kind)|
    ensures Tail(kind)[i] == '/' ==>
      match kind case TagKind(_) => i >= 4 case ManifestKind(_) => i == 9 case ReferrerKind(_, _) => i == 9 || i == 81 case _ => false
  {
    match kind
    case MetaKind => assert '/' !in "meta";
    case PolicyKind => assert '/' !in "policy";
    case LifecycleKind => assert '/' !in "lifecycle";
    case TagKind(tag) => if i < 4 { assert Tail(kind)[i] == "tags"[i] && '/' !in "tags"; }
    case ManifestKind(d) =>
      TokenPlain(d);
      if i < 9 { assert Tail(kind)[i] == "manifests"[i] && '/' !in "manifests"; }
      if i > 9 { assert Tail(kind)[i] == DigestToken(d)[i - 10]; }
    case ReferrerKind(s, d) =>
      TokenPlain(s);
      TokenPlain(d);
      if i < 9 { assert Tail(kind)[i] == "referrers"[i] && '/' !in "referrers"; }
      if 9 < i < 81 { assert Tail(kind)[i] == DigestToken(s)[i - 10]; }
      if i > 81 { assert Tail(kind)[i] == DigestToken(d)[i - 82]; }
  }

  /** Below a component of its own, only a tag is long enough to reach another repository's entries. */
  lemma DeepTail(kind: Kind, q: string, subject: string)
    requires ValidKind(kind) && IsDigest(subject) && HasPrefix(Tail(kind), q + "/referrers/" + DigestToken(subject) + "/")
    ensures kind.TagKind? && HasPrefix(q, "tags")
  {
    var p, tail := q + "/referrers/" + DigestToken(subject) + "/", Tail(kind);
    assert p[|q|] == '/' && p[|q| + 10] == '/' && p[|q| + 82] == '/';
    assert tail[|q|] == '/' && tail[|q| + 10] == '/' && tail[|q| + 82] == '/';
    TailSlashes(kind, |q|);
    TailSlashes(kind, |q| + 10);
    TailSlashes(kind, |q| + 82);
    assert q[..4] == p[..4] == tail[..4];
  }

  lemma OwnTail(kind: Kind, subject: string)
    requires ValidKind(kind) && IsDigest(subject)
    ensures HasPrefix(Tail(kind), "referrers/" + DigestToken(subject) + "/") <==> kind.ReferrerKind? && kind.subject == subject
  {
    var p, tail := "referrers/" + DigestToken(subject) + "/", Tail(kind);
    if kind.ReferrerKind? {
      assert tail[10..81] == DigestToken(kind.subject) && p[10..81] == DigestToken(subject);
      if p <= tail { TokenInjective(kind.subject, subject); }
      assert tail == "referrers/" + DigestToken(kind.subject) + "/" + DigestToken(kind.referrer);
    } else {
      assert p[0] == 'r' && tail[0] != 'r';
    }
  }

  lemma TailStart(kind: Kind, subject: string)
    requires IsDigest(subject)
    ensures !HasPrefix(Tail(kind), DigestToken(subject) + "/")
  {
    assert DigestToken(subject)[0] == subject[..7][0] == 's';
    assert Tail(kind)[0] != 's';
  }

  lemma HomeRest(repo: string, subject: string, n: nat)
    ensures n < |repo| ==> Home(repo, subject)[n + 1..] == repo[n + 1..] + "/referrers/" + DigestToken(subject)
    ensures n == |repo| ==> Home(repo, subject)[n + 1..] == "referrers/" + DigestToken(subject)
    ensures n == |repo| + 10 ==> Home(repo, subject)[n + 1..] == DigestToken(subject)
  {
    hide DigestToken;
  }

  /** A key whose repository ends before the subject's home does. */
  lemma ShortRepository(r: string, kind: Kind, repo: string, subject: string)
    requires ValidKind(kind) && IsDigest(subject)
    requires HasPrefix(Home(repo, subject), r + "/") && HasPrefix(Tail(kind), Home(repo, subject)[|r| + 1..] + "/")
    ensures (r == repo && kind.ReferrerKind? && kind.subject == subject) || TagInside(r, kind, repo, subject)
  {
    var home := Home(repo, subject);
    assert home[|r|] == '/' by { assert (r + "/")[|r|] == '/'; }
    assert r == home[..|r|] by { assert (r + "/")[..|r|] == r; }
    HomeSlashes(repo, subject, |r|);
    HomeRest(repo, subject, |r|);
    if |r| == |repo| {
      OwnTail(kind, subject);
    } else if |r| < |repo| {
      TagCase(r, kind, repo, subject);
    } else {
      TailStart(kind, subject);
    }
  }

  lemma TagCase(r: string, kind: Kind, repo: string, subject: string)
    requires ValidKind(kind) && IsDigest(subject) && |r| < |repo| && r == repo[..|r|] && repo[|r|] == '/'
    requires HasPrefix(Tail(kind), Home(repo, subject)[|r| + 1..] + "/")
    ensures TagInside(r, kind, repo, subject)
  {
    hide Tail, DigestToken, HasPrefix, IsDigest, ValidKind;
    var q := repo[|r| + 1..];
    HomeRest(repo, subject, |r|);
    DeepTail(kind, q, subject);
    hide Home;
    TagsBelow(r, q);
    assert repo == r + "/" + q;
    TagTail(kind);
  }

  lemma TagTail(kind: Kind)
    requires kind.TagKind?
    ensures Tail(kind) == "tags/" + kind.tag
  {
  }

  lemma TagsBelow(r: string, q: string)
    requires HasPrefix(q, "tags")
    ensures HasPrefix(r + "/" + q, r + "/tags")
  {
    SameFront(r + "/", q, "tags");
    assert r + "/" + "tags" == r + "/tags";
  }

  /**
   The keys under a subject's prefix: the subject's own entries, every key of a
   repository nested in the index, and tags that spell their way into it.
   */
  lemma KeysUnderPrefix(r: string, kind: Kind, repo: string, subject: string)
    requires ValidKind(kind) && IsDigest(subject)
    ensures HasPrefix(KeyOf(r, kind), SubjectPrefix(repo, subject))
       <==> (r == repo && kind.ReferrerKind? && kind.subject == subject) || Nested(r, repo, subject) || TagInside(r, kind, repo, subject)
  {
    hide Tail, ValidKind, IsDigest, TagInside, Home;
    var home, tail := Home(repo, subject), Tail(kind);
    HomePrefix(repo, subject);
    SameFront("repos/", r + "/" + tail, home + "/");
    PrefixCases(r, tail, home);
    if HasPrefix(home, r + "/") && HasPrefix(tail, home[|r| + 1..] + "/") { ShortRepository(r, kind, repo, subject); }
    if r == repo && kind.ReferrerKind? && kind.subject == subject { OwnReaches(kind, repo, subject); }
    if TagInside(r, kind, repo, subject) { TagReaches(r, kind, repo, subject); }
  }

  lemma HomePrefix(repo: string, subject: string)
    ensures SubjectPrefix(repo, subject) == "repos/" + (Home(repo, subject) + "/")
  {
    hide DigestToken;
  }

  lemma OwnReaches(kind: Kind, repo: string, subject: string)
    requires ValidKind(kind) && IsDigest(subject) && kind.ReferrerKind? && kind.subject == subject
    ensures HasPrefix(Home(repo, subject), repo + "/") && HasPrefix(Tail(kind), Home(repo, subject)[|repo| + 1..] + "/")
  {
    HomeRest(repo, subject, |repo|);
    OwnTail(kind, subject);
    hide Tail, DigestToken;
    assert Home(repo, subject) == repo + "/" + ("referrers/" + DigestToken(subject));
  }

  lemma TagReaches(r: string, kind: Kind, repo: string, subject: string)
    requires TagInside(r, kind, repo, subject)
    ensures HasPrefix(Home(repo, subject), r + "/") && HasPrefix(Tail(kind), Home(repo, subject)[|r| + 1..] + "/")
  {
    assert r + "/" <= r + "/tags" <= repo <= Home(repo, subject);
  }

  // When two records share a key.

  /** A tag without a slash; the other kinds have no such freedom. */
  predicate PlainKind(kind: Kind) { ValidKind(kind) && (kind.TagKind? ==> '/' !in kind.tag) }

  function Final(kind: Kind): string {
    match kind
    case MetaKind => "meta"
    case PolicyKind => "policy"
    case LifecycleKind => "lifecycle"
    case TagKind(tag) => tag
    case ManifestKind(d) => DigestToken(d)
    case ReferrerKind(_, d) => DigestToken(d)
  }

  function Folder(r: string, kind: Kind): string {
    match kind
    case TagKind(_) => r + "/tags"
    case ManifestKind(_) => r + "/manifests"
    case ReferrerKind(s, _) => r + "/referrers/" + DigestToken(s)
    case _ => r
  }

  lemma FinalPlain(kind: Kind)
    requires PlainKind(kind)
    ensures '/' !in Final(kind)
  {
    match kind
    case ManifestKind(d) => TokenPlain(d);
    case ReferrerKind(s, d) => TokenPlain(d);
    case _ =>
  }

  lemma FolderAndFinal(r: string, kind: Kind)
    ensures Path(r, kind) == Folder(r, kind) + "/" + Final(kind)
  {
    hide DigestToken;
    match kind
    case TagKind(tag) => assert r + "/" + ("tags/" + tag) == r + "/tags" + "/" + tag;
    case ManifestKind(d) => assert r + "/" + ("manifests/" + DigestToken(d)) == r + "/manifests" + "/" + DigestToken(d);
    case ReferrerKind(s, d) => EntryFolder(r, DigestToken(s), DigestToken(d));
    case _ =>
  }

  lemma EntryFolder(r: string, s: string, d: string)
    ensures r + "/" + ("referrers/" + s + "/" + d) == r + "/referrers/" + s + "/" + d
  {
    assert "referrers/" + s + "/" + d == "referrers/" + (s + "/" + d);
    assert r + "/referrers/" + s + "/" + d == r + "/referrers/" + (s + "/" + d);
    assert r + "/" + ("referrers/" + (s + "/" + d)) == r + "/referrers/" + (s + "/" + d);
  }

  lemma FrontNoLonger(a: string, b: string, c: string, d: string)
    requires '/' !in b && a + "/" + b == c + "/" + d
    ensures |c| <= |a|
  {
    var s := a + "/" + b;
    assert forall i :: |a| < i < |s| ==> s[i] == b[i - |a| - 1];
    assert s[|c|] == '/';
  }

  lemma LastSeparator(a: string, b: string, c: string, d: string)
    requires '/' !in b && '/' !in d && a + "/" + b == c + "/" + d
    ensures a == c && b == d
  {
    FrontNoLonger(a, b, c, d);
    FrontNoLonger(c, d, a, b);
    var s := a + "/" + b;
    assert s[..|a|] == a && s[..|c|] == c && s[|a| + 1..] == b && s[|c| + 1..] == d;
  }

  /** Kinds whose key is the repository's path and one fixed word. */
  predicate WordKind(kind: Kind) { kind.MetaKind? || kind.PolicyKind? || kind.LifecycleKind? }

  /** A tag that is named like a record of the repository named like its folder. */
  predicate TagShares(r: string, kind: Kind, r': string, kind': Kind) {
    kind.TagKind? && WordKind(kind') && r' == r + "/tags" && kind.tag == Tail(kind')
  }

  /** Two records share a key exactly when they are the same, or one is a tag called `meta`, `policy` or `lifecycle` and the other is in the repository under `/tags`. */
  lemma SharedKey(r: string, kind: Kind, r': string, kind': Kind)
    requires PlainKind(kind) && PlainKind(kind')
    ensures KeyOf(r, kind) == KeyOf(r', kind')
       <==> (r == r' && kind == kind') || TagShares(r, kind, r', kind') || TagShares(r', kind', r, kind)
  {
    FolderAndFinal(r, kind);
    FolderAndFinal(r', kind');
    FinalPlain(kind);
    FinalPlain(kind');
    hide Path, Folder, Final, Tail;
    if KeyOf(r, kind) == KeyOf(r', kind') {
      assert Path(r, kind) == KeyOf(r, kind)[6..] && Path(r', kind') == KeyOf(r', kind')[6..];
      LastSeparator(Folder(r, kind), Final(kind), Folder(r', kind'), Final(kind'));
      SharedFolder(r, kind, r', kind');
    }
    if TagShares(r, kind, r', kind') { TagAndWord(r, kind, r', kind'); }
    if TagShares(r', kind', r, kind) { TagAndWord(r', kind', r, kind); }
  }

  lemma TagAndWord(r: string, kind: Kind, r': string, kind': Kind)
    requires TagShares(r, kind, r', kind')
    ensures Folder(r, kind) == Folder(r', kind') && Final(kind) == Final(kind')
  {
  }

  lemma SharedFolder(r: string, kind: Kind, r': string, kind': Kind)
    requires ValidKind(kind) && ValidKind(kind') && Folder(r, kind) == Folder(r', kind') && Final(kind) == Final(kind')
    ensures (r == r' && kind == kind') || TagShares(r, kind, r', kind') || TagShares(r', kind', r, kind)
  {
    if WordKind(kind) && WordKind(kind') {
      assert "meta" != "policy" && "meta" != "lifecycle" && "policy" != "lifecycle";
    } else if WordKind(kind) || WordKind(kind') {
      WordFinal(kind);
      WordFinal(kind');
    } else {
      SharedDeep(r, kind, r', kind');
    }
  }

  lemma WordFinal(kind: Kind)
    requires ValidKind(kind)
    ensures WordKind(kind) ==> |Final(kind)| < 71 && Final(kind) == Tail(kind)
    ensures kind.ManifestKind? || kind.ReferrerKind? ==> |Final(kind)| == 71
  {
  }

  lemma SharedDeep(r: string, kind: Kind, r': string, kind': Kind)
    requires ValidKind(kind) && ValidKind(kind') && !WordKind(kind) && !WordKind(kind')
    requires Folder(r, kind) == Folder(r', kind') && Final(kind) == Final(kind')
    ensures r == r' && kind == kind'
  {
    FolderEnds(r, kind);
    FolderEnds(r', kind');
    var f := Folder(r, kind);
    match kind
    case TagKind(_) =>
      assert f[..|f| - 5] == r && (kind'.TagKind? ==> f[..|f| - 5] == r');
    case ManifestKind(d) =>
      assert f[..|f| - 10] == r;
      if kind'.ManifestKind? { assert f[..|f| - 10] == r'; TokenInjective(d, kind'.digest); }
    case ReferrerKind(s, d) =>
      assert f[..|f| - 82] == r && f[|f| - 71..] == DigestToken(s);
      if kind'.ReferrerKind? {
        assert f[..|f| - 82] == r' && f[|f| - 71..] == DigestToken(kind'.subject);
        TokenInjective(s, kind'.subject);
        TokenInjective(d, kind'.referrer);
      }
  }

  /** The end of a folder tells tags, manifests and entries apart. */
  lemma FolderEnds(r: string, kind: Kind)
    requires ValidKind(kind) && !WordKind(kind)
    ensures |Folder(r, kind)| >= 5
    ensures var f := Folder(r, kind); var last, fifth := f[|f| - 1], f[|f| - 5];
      match kind case TagKind(_) => last == 's' && fifth == '/' case ManifestKind(_) => last == 's' && fifth == 'f' case _ => IsHex(last)
  {
    match kind
    case ReferrerKind(s, _) => assert DigestToken(s)[70] == s[70];
    case _ =>
  }

  // Names.

  predicate IsAlnum(c: char) { '0' <= c <= '9' || 'a' <= c <= 'z' }

  predicate IsWord(s: string) { s != "" && forall i :: 0 <= i < |s| ==> IsAlnum(s[i]) }

  predicate IsSeparator(s: string) { s == "." || s == "_" || s == "__" || (s != "" && forall i :: 0 <= i < |s| ==> s[i] == '-') }

  /** Words joined by separators. */
  ghost predicate IsComponent(s: string) {
    IsWord(s) || exists i, j :: 0 <= i < j < |s| && IsWord(s[..i]) && IsSeparator(s[i..j]) && IsComponent(s[j..])
  }

  /** Components joined by slashes. */
  ghost predicate IsRepoPath(s: string) {
    IsComponent(s) || exists i :: 0 <= i < |s| && s[i] == '/' && IsComponent(s[..i]) && IsRepoPath(s[i + 1..])
  }

  ghost predicate IsRepoName(s: string) { 2 <= |s| <= 256 && IsRepoPath(s) }

  lemma {:induction false} PathBelow(a: string, b: string)
    requires IsRepoPath(a) && IsRepoPath(b)
    ensures IsRepoPath(a + "/" + b)
  {
    var s := a + "/" + b;
    if IsComponent(a) {
      assert s[|a|] == '/' && s[..|a|] == a && s[|a| + 1..] == b;
    } else {
      var i :| 0 <= i < |a| && a[i] == '/' && IsComponent(a[..i]) && IsRepoPath(a[i + 1..]);
      PathBelow(a[i + 1..], b);
      assert s[i] == '/' && s[..i] == a[..i] && s[i + 1..] == a[i + 1..] + "/" + b;
    }
  }

  lemma TokenComponent(d: string)
    requires IsDigest(d)
    ensures IsComponent(DigestToken(d))
  {
    var t := DigestToken(d);
    assert t[..6] == d[..7][..6] == "sha256";
    assert t[6] == '-' by { assert d[6] == d[..7][6]; }
    assert IsWord("sha256") && IsSeparator("-") && t[6..7] == "-";
    assert IsWord(t[7..]);
  }

  /** The repository that lies on a subject's entries has a legal name whenever the name is short enough. */
  lemma HomeIsLegal(repo: string, subject: string)
    requires IsDigest(subject) && IsRepoName(repo)
    ensures IsRepoName(Home(repo, subject)) <==> |repo| <= 174
  {
    TokenComponent(subject);
    assert IsWord("referrers");
    PathBelow("referrers", DigestToken(subject));
    PathBelow(repo, "referrers" + "/" + DigestToken(subject));
    assert Home(repo, subject) == repo + "/" + ("referrers" + "/" + DigestToken(subject));
  }
}
