/** Image references: `[host/]repo[:tag][@digest]`, parsed and printed docker-style. */
module ImageRef {
  import opened Common

  const DEFAULT_REGISTRY := "docker.io"
  const OFFICIAL := "library/"
  const DEFAULT_TAG := "latest"
  const SHA256 := "sha256:"

  datatype Ref = Ref(registry: string, repo: string, tag: Option<string>, digest: Option<string>)

  datatype ParseError = Empty | BadDigest | MissingRepository

  // --- splitting ---------------------------------------------------------------------

  /** Split at the first `c`. */
  function SplitOnce(s: string, c: char): (r: Option<(string, string)>)
    ensures r.None? <==> c !in s
    ensures r.Some? ==> s == r.value.0 + [c] + r.value.1 && c !in r.value.0
  {
    if s == [] then None
    else if s[0] == c then Some(([], s[1..]))
    else
      var r := SplitOnce(s[1..], c);
      if r.None? then None else Some(([s[0]] + r.value.0, r.value.1))
  }

  /** Split at the last `c`. */
  function RSplitOnce(s: string, c: char): (r: Option<(string, string)>)
    ensures r.None? <==> c !in s
    ensures r.Some? ==> s == r.value.0 + [c] + r.value.1 && c !in r.value.1
  {
    if s == [] then None
    else
      var n := |s| - 1;
      if s[n] == c then Some((s[..n], []))
      else
        var r := RSplitOnce(s[..n], c);
        if r.None? then None else Some((r.value.0, r.value.1 + [s[n]]))
  }

  lemma SplitAt(a: string, c: char, b: string)
    requires c !in a
    ensures SplitOnce(a + [c] + b, c) == Some((a, b))
  {
    var s := a + [c] + b;
    var (x, y) := SplitOnce(s, c).value;
    FirstCut(a, b, x, y, c);
  }

  /** Only one cut leaves no `c` before it. */
  lemma FirstCut(a: string, b: string, x: string, y: string, c: char)
    requires a + [c] + b == x + [c] + y && c !in a && c !in x
    ensures a == x && b == y
  {
    var s := a + [c] + b;
    assert s[|a|] == c && s[|x|] == c;
    assert a == s[..|a|] && x == s[..|x|];
    assert b == s[|a| + 1..] && y == s[|x| + 1..];
  }

  lemma RSplitAt(a: string, c: char, b: string)
    requires c !in b
    ensures RSplitOnce(a + [c] + b, c) == Some((a, b))
  {
    var s := a + [c] + b;
    var (x, y) := RSplitOnce(s, c).value;
    LastCut(a, b, x, y, c);
  }

  /** Only one cut leaves no `c` after it. */
  lemma LastCut(a: string, b: string, x: string, y: string, c: char)
    requires a + [c] + b == x + [c] + y && c !in b && c !in y
    ensures a == x && b == y
  {
    var s := a + [c] + b;
    assert s[|a|] == c && s[|x|] == c;
    assert a == s[..|a|] && x == s[..|x|];
    assert b == s[|a| + 1..] && y == s[|x| + 1..];
  }

  // --- parsing ------------------------------------------------------------------------

  /** Unicode White_Space. */
  predicate IsSpace(c: char) {
    var n := c as int;
    9 <= n <= 13 || n == 32 || n == 0x85 || n == 0xA0 || n == 0x1680 || 0x2000 <= n <= 0x200A
    || n == 0x2028 || n == 0x2029 || n == 0x202F || n == 0x205F || n == 0x3000
  }

  function Trim(s: string): string {
    if s == [] then []
    else if IsSpace(s[0]) then Trim(s[1..])
    else if IsSpace(s[|s| - 1]) then Trim(s[..|s| - 1])
    else s
  }

  function FirstSegment(s: string): string {
    var r := SplitOnce(s, '/');
    if r.None? then s else r.value.0
  }

  predicate HostLike(first: string) {
    '.' in first || ':' in first || first == "localhost"
  }

  predicate DefaultHost(host: string) {
    host == DEFAULT_REGISTRY || host == "index.docker.io" || host == "registry-1.docker.io"
  }

  /** Registry and path: a host is there when the first of several segments looks like one. */
  function SplitRegistry(rest: string): (string, string) {
    if HostLike(FirstSegment(rest)) && '/' in rest then
      var (host, path) := SplitOnce(rest, '/').value;
      (if DefaultHost(host) then DEFAULT_REGISTRY else host, path)
    else (DEFAULT_REGISTRY, rest)
  }

  /** Repository and tag: the tag is in the last segment, after the last colon. */
  function SplitTag(path: string): (string, Option<string>) {
    var r := RSplitOnce(path, ':');
    if r.Some? && '/' !in r.value.1 then (r.value.0, Some(r.value.1)) else (path, None)
  }

  function NormalizeRepo(repo: string, isDefault: bool): string {
    if isDefault && '/' !in repo then OFFICIAL + repo else repo
  }

  function SplitDigest(s: string): (string, Option<string>) {
    var r := SplitOnce(s, '@');
    if r.None? then (s, None) else (r.value.0, Some(r.value.1))
  }

  function Parse(input: string): Result<Ref, ParseError> {
    var s := Trim(input);
    if s == [] then Err(Empty)
    else
      var (rest, digest) := SplitDigest(s);
      if digest.Some? && !(SHA256 <= digest.value) then Err(BadDigest)
      else ParseRest(rest, digest)
  }

  /** What is left once the digest is off. */
  function ParseRest(rest: string, digest: Option<string>): Result<Ref, ParseError> {
    var (registry, path) := SplitRegistry(rest);
    var (repo, tag) := SplitTag(path);
    if repo == [] then Err(MissingRepository)
    else
      var tag' := if tag.None? && digest.None? then Some(DEFAULT_TAG) else tag;
      Ok(Ref(registry, NormalizeRepo(repo, registry == DEFAULT_REGISTRY), tag', digest))
  }

  // --- printing -------------------------------------------------------------------------

  function TagPart(tag: Option<string>): string {
    if tag.None? then [] else [':'] + tag.value
  }

  function DigestPart(digest: Option<string>): string {
    if digest.None? then [] else ['@'] + digest.value
  }

  /** The repository as printed: official images lose their prefix. */
  function ShortRepo(r: Ref): string {
    if r.registry == DEFAULT_REGISTRY && OFFICIAL <= r.repo then r.repo[|OFFICIAL|..] else r.repo
  }

  function DisplayNoTag(r: Ref): string {
    (if r.registry == DEFAULT_REGISTRY then [] else r.registry + ['/']) + ShortRepo(r)
  }

  /** `display_ref`: pushed together piece by piece. */
  method DisplayRef(r: Ref) returns (s: string)
    ensures s == Display(r)
  {
    s := [];
    if r.registry != DEFAULT_REGISTRY {
      s := s + r.registry;
      s := s + ['/'];
    }
    s := s + ShortRepo(r);
    assert s == DisplayNoTag(r);
    if r.tag.Some? {
      s := s + [':'];
      s := s + r.tag.value;
    }
    assert s == DisplayNoTag(r) + TagPart(r.tag);
    if r.digest.Some? {
      s := s + ['@'];
      s := s + r.digest.value;
    }
  }

  function Display(r: Ref): string {
    DisplayNoTag(r) + TagPart(r.tag) + DigestPart(r.digest)
  }

  // --- what parsing produces ---------------------------------------------------------------

  ghost predicate Plain(s: string) {
    forall c :: c in s ==> !IsSpace(c)
  }

  ghost predicate Lacks(s: string, bad: set<char>) {
    forall c :: c in s ==> c !in bad
  }

  /** The references parsing gives for input without white space. */
  ghost predicate Canonical(r: Ref) {
    && Plain(r.registry) && '/' !in r.registry && '@' !in r.registry
    && (r.registry == DEFAULT_REGISTRY || (HostLike(r.registry) && !DefaultHost(r.registry)))
    && Plain(r.repo) && r.repo != [] && '@' !in r.repo
    && (r.registry == DEFAULT_REGISTRY ==> '/' in r.repo)
    && (r.tag.Some? ==> Plain(r.tag.value) && Lacks(r.tag.value, {'/', ':', '@'}))
    && (r.tag.None? ==> r.digest.Some? && SplitTag(r.repo).1.None?)
    && (r.digest.Some? ==> Plain(r.digest.value) && SHA256 <= r.digest.value)
  }

  lemma TrimPlain(s: string)
    requires Plain(s)
    ensures Trim(s) == s
  {
  }

  lemma LatestIsPlain()
    ensures Plain(DEFAULT_TAG) && Lacks(DEFAULT_TAG, {'/', ':', '@'})
    ensures Plain(OFFICIAL) && Plain(DEFAULT_REGISTRY) && '/' !in DEFAULT_REGISTRY && '@' !in DEFAULT_REGISTRY
    ensures '@' !in OFFICIAL
  {
  }

  lemma SplitRegistryParts(rest: string)
    requires Plain(rest) && '@' !in rest
    ensures var (registry, path) := SplitRegistry(rest);
            && Plain(registry) && '/' !in registry && '@' !in registry && Plain(path) && '@' !in path
            && (registry == DEFAULT_REGISTRY || (HostLike(registry) && !DefaultHost(registry)))
  {
    LatestIsPlain();
  }

  lemma SplitTagParts(path: string)
    requires Plain(path) && '@' !in path
    ensures var (repo, tag) := SplitTag(path);
            && Plain(repo) && '@' !in repo && path == repo + TagPart(tag)
            && (tag.Some? ==> Plain(tag.value) && Lacks(tag.value, {'/', ':', '@'}))
  {
  }

  lemma ParseCanonical(input: string)
    requires Plain(input)
    ensures Parse(input).Ok? ==> Canonical(Parse(input).value)
  {
    TrimPlain(input);
    LatestIsPlain();
    var (rest, digest) := SplitDigest(input);
    assert Plain(rest) && '@' !in rest && (digest.Some? ==> Plain(digest.value));
    var (registry, path) := SplitRegistry(rest);
    SplitRegistryParts(rest);
    var (repo, tag) := SplitTag(path);
    SplitTagParts(path);
    var full := NormalizeRepo(repo, registry == DEFAULT_REGISTRY);
    if tag.None? { PrefixKeepsNoTag(repo, registry == DEFAULT_REGISTRY); }
  }

  /** The official prefix brings no colon along. */
  lemma PrefixKeepsNoTag(repo: string, isDefault: bool)
    requires SplitTag(repo).1.None?
    ensures SplitTag(NormalizeRepo(repo, isDefault)).1.None?
  {
    if isDefault && '/' !in repo {
      assert ':' !in repo;
      assert ':' !in OFFICIAL + repo;
    }
  }

  // --- printing and parsing again -------------------------------------------------------------

  /** The references whose printed form keeps its meaning. */
  predicate Displayable(r: Ref) {
    || r.registry != DEFAULT_REGISTRY
    || if OFFICIAL <= r.repo then r.repo[|OFFICIAL|..] != [] && '/' !in r.repo[|OFFICIAL|..]
       else !HostLike(FirstSegment(r.repo))
  }

  /** A repository and tag that belong together split apart again. */
  ghost predicate TagFits(repo: string, tag: Option<string>) {
    if tag.Some? then Lacks(tag.value, {'/', ':'}) else SplitTag(repo).1.None?
  }

  lemma TagRoundTrip(repo: string, tag: Option<string>)
    requires TagFits(repo, tag)
    ensures SplitTag(repo + TagPart(tag)) == (repo, tag)
  {
    if tag.Some? {
      assert repo + TagPart(tag) == repo + [':'] + tag.value;
      RSplitAt(repo, ':', tag.value);
    } else {
      assert repo + TagPart(tag) == repo;
    }
  }

  /** Cutting a repository short at the front leaves its tag alone. */
  lemma TailFits(a: string, repo: string, tag: Option<string>)
    requires TagFits(a + repo, tag)
    ensures TagFits(repo, tag)
  {
    if tag.None? && ':' in repo {
      var (u, v) := RSplitOnce(repo, ':').value;
      assert a + repo == (a + u) + [':'] + v;
      RSplitAt(a + u, ':', v);
    }
  }

  /** Printing keeps white space out and puts the digest where parsing looks for it. */
  lemma DisplayDigest(r: Ref)
    requires Canonical(r)
    ensures Parse(Display(r)) == ParseRest(DisplayNoTag(r) + TagPart(r.tag), r.digest)
  {
    var rest := DisplayNoTag(r) + TagPart(r.tag);
    var s := Display(r);
    assert Plain(s) && '@' !in rest;
    TrimPlain(s);
    if r.digest.Some? {
      assert s == rest + ['@'] + r.digest.value;
      SplitAt(rest, '@', r.digest.value);
    } else {
      assert s == rest;
    }
  }

  /** The registry of a path that starts with a host. */
  lemma HostedRest(host: string, path: string)
    requires '/' !in host && HostLike(host)
    ensures SplitRegistry(host + ['/'] + path) == (if DefaultHost(host) then DEFAULT_REGISTRY else host, path)
  {
    SplitAt(host, '/', path);
  }

  lemma UnhostedRest(repo: string, more: string)
    requires '/' in repo && !HostLike(FirstSegment(repo))
    ensures SplitRegistry(repo + more) == (DEFAULT_REGISTRY, repo + more)
  {
    var (first, path) := SplitOnce(repo, '/').value;
    assert repo + more == first + ['/'] + (path + more);
    SplitAt(first, '/', path + more);
  }

  lemma ParseRestIs(rest: string, digest: Option<string>, registry: string, path: string, repo: string,
                    tag: Option<string>)
    requires SplitRegistry(rest) == (registry, path) && SplitTag(path) == (repo, tag)
    requires tag.None? ==> digest.Some?
    ensures ParseRest(rest, digest) ==
            if repo == [] then Err(MissingRepository)
            else Ok(Ref(registry, NormalizeRepo(repo, registry == DEFAULT_REGISTRY), tag, digest))
  {
  }

  /** Re-parsing a repository that starts with a host takes the host off it. */
  lemma HostedReparse(host: string, path: string, tag: Option<string>, digest: Option<string>)
    requires '/' !in host && HostLike(host) && TagFits(path, tag) && (tag.None? ==> digest.Some?)
    ensures var registry := if DefaultHost(host) then DEFAULT_REGISTRY else host;
            ParseRest(host + ['/'] + path + TagPart(tag), digest) ==
            if path == [] then Err(MissingRepository)
            else Ok(Ref(registry, NormalizeRepo(path, registry == DEFAULT_REGISTRY), tag, digest))
  {
    var registry := if DefaultHost(host) then DEFAULT_REGISTRY else host;
    var rest := path + TagPart(tag);
    assert host + ['/'] + path + TagPart(tag) == host + ['/'] + rest;
    HostedRest(host, rest);
    TagRoundTrip(path, tag);
    ParseRestIs(host + ['/'] + rest, digest, registry, rest, path, tag);
  }

  lemma UnhostedReparse(repo: string, tag: Option<string>, digest: Option<string>)
    requires '/' in repo && !HostLike(FirstSegment(repo)) && TagFits(repo, tag) && (tag.None? ==> digest.Some?)
    ensures ParseRest(repo + TagPart(tag), digest) == Ok(Ref(DEFAULT_REGISTRY, repo, tag, digest))
  {
    UnhostedRest(repo, TagPart(tag));
    TagRoundTrip(repo, tag);
    ParseRestIs(repo + TagPart(tag), digest, DEFAULT_REGISTRY, repo + TagPart(tag), repo, tag);
  }

  /** A single segment is an official image. */
  lemma SegmentReparse(x: string, tag: Option<string>, digest: Option<string>)
    requires '/' !in x && TagFits(x, tag) && (tag.None? ==> digest.Some?)
    ensures ParseRest(x + TagPart(tag), digest) ==
            if x == [] then Err(MissingRepository) else Ok(Ref(DEFAULT_REGISTRY, OFFICIAL + x, tag, digest))
  {
    var rest := x + TagPart(tag);
    assert '/' !in rest;
    TagRoundTrip(x, tag);
    ParseRestIs(rest, digest, DEFAULT_REGISTRY, rest, x, tag);
  }

  lemma CanonicalFits(r: Ref)
    requires Canonical(r)
    ensures TagFits(r.repo, r.tag) && (r.tag.None? ==> r.digest.Some?)
  {
  }

  /** A reference on another registry always comes back. */
  lemma ForeignRoundTrip(r: Ref)
    requires Canonical(r) && r.registry != DEFAULT_REGISTRY
    ensures Parse(Display(r)) == Ok(r)
  {
    DisplayDigest(r);
    CanonicalFits(r);
    HostedReparse(r.registry, r.repo, r.tag, r.digest);
  }

  /** A repository whose first segment looks like a host parses to one that is shorter, or is official. */
  lemma HostLost(repo: string, tag: Option<string>, digest: Option<string>)
    requires '/' in repo && HostLike(FirstSegment(repo)) && TagFits(repo, tag) && (tag.None? ==> digest.Some?)
    ensures var r := ParseRest(repo + TagPart(tag), digest);
            r.Ok? ==> |r.value.repo| < |OFFICIAL| + |repo| && (|r.value.repo| < |repo| || OFFICIAL <= r.value.repo)
  {
    var (host, path) := SplitOnce(repo, '/').value;
    TailFits(host + ['/'], path, tag);
    HostedReparse(host, path, tag, digest);
    assert |repo| == |host| + 1 + |path|;
    assert OFFICIAL <= OFFICIAL + path;
  }

  /** What the short form of an official image parses to. */
  lemma OfficialReparse(x: string, tag: Option<string>, digest: Option<string>)
    requires TagFits(OFFICIAL + x, tag) && (tag.None? ==> digest.Some?)
    ensures ParseRest(x + TagPart(tag), digest) == Ok(Ref(DEFAULT_REGISTRY, OFFICIAL + x, tag, digest))
            <==> x != [] && '/' !in x
  {
    TailFits(OFFICIAL, x, tag);
    assert |OFFICIAL + x| == |OFFICIAL| + |x| && |OFFICIAL| > 0;
    if '/' !in x {
      SegmentReparse(x, tag, digest);
    } else if HostLike(FirstSegment(x)) {
      HostLost(x, tag, digest);
    } else {
      UnhostedReparse(x, tag, digest);
    }
  }

  /** What a user repository of the default registry parses to. */
  lemma UserReparse(repo: string, tag: Option<string>, digest: Option<string>)
    requires '/' in repo && !(OFFICIAL <= repo) && TagFits(repo, tag) && (tag.None? ==> digest.Some?)
    ensures ParseRest(repo + TagPart(tag), digest) == Ok(Ref(DEFAULT_REGISTRY, repo, tag, digest))
            <==> !HostLike(FirstSegment(repo))
  {
    if HostLike(FirstSegment(repo)) {
      HostLost(repo, tag, digest);
    } else {
      UnhostedReparse(repo, tag, digest);
    }
  }

  lemma {:induction false} OfficialRoundTripIff(r: Ref, x: string)
    requires Canonical(r) && r.registry == DEFAULT_REGISTRY && r.repo == OFFICIAL + x
    ensures Parse(Display(r)) == Ok(r) <==> x != [] && '/' !in x
  {
    DisplayDigest(r);
    CanonicalFits(r);
    assert r.repo[|OFFICIAL|..] == x && OFFICIAL <= r.repo;
    assert DisplayNoTag(r) == x;
    OfficialReparse(x, r.tag, r.digest);
  }

  lemma {:induction false} UserRoundTripIff(r: Ref)
    requires Canonical(r) && r.registry == DEFAULT_REGISTRY && !(OFFICIAL <= r.repo)
    ensures Parse(Display(r)) == Ok(r) <==> !HostLike(FirstSegment(r.repo))
  {
    DisplayDigest(r);
    CanonicalFits(r);
    assert DisplayNoTag(r) == r.repo;
    UserReparse(r.repo, r.tag, r.digest);
  }

  /** A canonical Docker Hub reference comes back from its printed form iff it is displayable. */
  lemma {:induction false} HubRoundTripIff(r: Ref)
    requires Canonical(r) && r.registry == DEFAULT_REGISTRY
    ensures Parse(Display(r)) == Ok(r) <==> Displayable(r)
  {
    if OFFICIAL <= r.repo {
      OfficialRoundTripIff(r, r.repo[|OFFICIAL|..]);
    } else {
      UserRoundTripIff(r);
    }
  }

  /** A canonical reference comes back from its printed form iff it is displayable. */
  lemma CanonicalRoundTripIff(r: Ref)
    requires Canonical(r)
    ensures Parse(Display(r)) == Ok(r) <==> Displayable(r)
  {
    if r.registry == DEFAULT_REGISTRY {
      HubRoundTripIff(r);
    } else {
      ForeignRoundTrip(r);
    }
  }

  /** For every input without white space: printing and parsing again gives the reference back iff it is displayable. */
  lemma RoundTripIff(input: string)
    requires Plain(input)
    ensures Parse(input).Ok? ==>
              (Parse(Display(Parse(input).value)) == Parse(input) <==> Displayable(Parse(input).value))
  {
    ParseCanonical(input);
    if Parse(input).Ok? { CanonicalRoundTripIff(Parse(input).value); }
  }

  lemma FirstSegmentIs(a: string, b: string)
    requires '/' !in a
    ensures FirstSegment(a + ['/'] + b) == a
  {
    SplitAt(a, '/', b);
  }

  /** An input of a hostless repository of several segments and a tag. */
  lemma TaggedInput(repo: string, tag: string)
    requires Plain(repo) && '/' in repo && '@' !in repo && !HostLike(FirstSegment(repo))
    requires Plain(tag) && Lacks(tag, {'/', ':', '@'})
    ensures Plain(repo + [':'] + tag)
    ensures Parse(repo + [':'] + tag) == Ok(Ref(DEFAULT_REGISTRY, repo, Some(tag), None))
  {
    var input := repo + [':'] + tag;
    assert repo + TagPart(Some(tag)) == input;
    assert '@' !in input;
    TrimPlain(input);
    UnhostedReparse(repo, Some(tag), None);
  }

  /** An official repository of two segments, and an input that names it. */
  const NESTED_REPO := "library" + ['/'] + "a/b"
  const NESTED := Ref(DEFAULT_REGISTRY, NESTED_REPO, Some("t"), None)
  const NESTED_INPUT := NESTED_REPO + [':'] + "t"

  lemma NestedRepo()
    ensures Plain(NESTED_REPO) && '/' in NESTED_REPO && '@' !in NESTED_REPO && !HostLike(FirstSegment(NESTED_REPO))
    ensures OFFICIAL <= NESTED_REPO && NESTED_REPO[|OFFICIAL|..] == "a/b"
  {
    assert '/' !in "library" && !HostLike("library");
    FirstSegmentIs("library", "a/b");
    assert "library" + ['/'] == OFFICIAL;
    assert Plain("library") && Plain("a/b") && '@' !in "library" && '@' !in "a/b";
  }

  lemma NestedCanonical()
    ensures Canonical(NESTED) && !Displayable(NESTED)
  {
    LatestIsPlain();
    NestedRepo();
    assert Plain("t") && Lacks("t", {'/', ':', '@'});
    assert '/' in "a/b";
  }

  /** An input whose reference does not come back: its printed form, a/b:t, names another repository. */
  lemma NestedOfficialIsLost()
    ensures Plain(NESTED_INPUT) && Parse(NESTED_INPUT) == Ok(NESTED) && Parse(Display(NESTED)) != Ok(NESTED)
  {
    NestedCanonical();
    NestedRepo();
    TaggedInput(NESTED_REPO, "t");
    CanonicalRoundTripIff(NESTED);
  }

  // --- what each form of input means -----------------------------------------------------------

  function HostPart(host: Option<string>): string {
    if host.None? then [] else host.value + ['/']
  }

  /** `[host/]repo[:tag][@digest]`. */
  function Written(host: Option<string>, repo: string, tag: Option<string>, digest: Option<string>): string {
    HostPart(host) + (repo + if tag.Some? then [':'] + tag.value else [])
    + if digest.Some? then ['@'] + digest.value else []
  }

  /** A host as written before a slash: it holds a dot or a colon, or is localhost. */
  ghost predicate Host(host: string) {
    Plain(host) && '/' !in host && '@' !in host && ('.' in host || ':' in host || host == "localhost")
  }

  /** A repository whose first segment, when there are several, is not a host. */
  ghost predicate Unhosted(repo: string) {
    '/' in repo ==> '.' !in FirstSegment(repo) && FirstSegment(repo) != "localhost"
  }

  /** Parts that are what they look like: nothing in them reads as another part, or as white space. */
  ghost predicate Parts(host: Option<string>, repo: string, tag: Option<string>, digest: Option<string>) {
    && Plain(repo) && ':' !in repo && '@' !in repo
    && (host.Some? ==> Host(host.value)) && (host.None? ==> Unhosted(repo))
    && (tag.Some? ==> Plain(tag.value) && Lacks(tag.value, {'/', ':', '@'}))
    && (digest.Some? ==> Plain(digest.value))
  }

  /** Only sha256 digests are known. */
  predicate BadAlgorithm(digest: Option<string>) {
    digest.Some? && !("sha256:" <= digest.value)
  }

  /** Docker Hub goes by three names, and is meant when there is no host. */
  predicate Hub(host: Option<string>) {
    host.None? || host.value == "docker.io" || host.value == "index.docker.io" || host.value == "registry-1.docker.io"
  }

  /**
   * What the parts mean. On Docker Hub a repository of one segment is an official image;
   * with neither tag nor digest the tag is latest. A digest that is not a sha256 and a
   * missing repository are errors.
   */
  function Meaning(host: Option<string>, repo: string, tag: Option<string>, digest: Option<string>)
    : Result<Ref, ParseError>
  {
    if BadAlgorithm(digest) then Err(BadDigest)
    else if repo == "" then Err(MissingRepository)
    else Ok(Ref(if Hub(host) then "docker.io" else host.value,
                if Hub(host) && '/' !in repo then "library/" + repo else repo,
                if tag.None? && digest.None? then Some("latest") else tag,
                digest))
  }

  function RegistryOf(host: Option<string>): string {
    if Hub(host) then "docker.io" else host.value
  }

  /** The part of an input after its host. */
  lemma {:induction false} HostSplits(host: Option<string>, repo: string, tag: Option<string>)
    requires Parts(host, repo, tag, None)
    ensures SplitRegistry(HostPart(host) + (repo + TagPart(tag))) == (RegistryOf(host), repo + TagPart(tag))
  {
    var rest := repo + TagPart(tag);
    if host.Some? {
      HostedRest(host.value, rest);
    } else {
      assert HostPart(host) + rest == rest;
      NoHostSplits(repo, tag);
    }
  }

  lemma {:induction false} NoHostSplits(repo: string, tag: Option<string>)
    requires ':' !in repo && Unhosted(repo) && (tag.Some? ==> '/' !in tag.value)
    ensures SplitRegistry(repo + TagPart(tag)) == ("docker.io", repo + TagPart(tag))
  {
    if '/' in repo {
      FirstSegmentFree(repo);
      UnhostedRest(repo, TagPart(tag));
    } else {
      assert '/' !in repo + TagPart(tag);
    }
  }

  lemma {:induction false} FirstSegmentFree(repo: string)
    requires ':' !in repo && '.' !in FirstSegment(repo) && FirstSegment(repo) != "localhost"
    ensures !HostLike(FirstSegment(repo))
  {
    var r := SplitOnce(repo, '/');
    if r.Some? { assert forall c :: c in r.value.0 ==> c in repo; }
  }

  lemma {:induction false} TagSplits(repo: string, tag: Option<string>)
    requires ':' !in repo && (tag.Some? ==> Lacks(tag.value, {'/', ':', '@'}))
    ensures SplitTag(repo + TagPart(tag)) == (repo, tag)
  {
    TagRoundTrip(repo, tag);
  }

  lemma {:induction false} DigestSplits(rest: string, digest: Option<string>)
    requires Plain(rest) && '@' !in rest && rest + DigestPart(digest) != [] && (digest.Some? ==> Plain(digest.value))
    ensures Parse(rest + DigestPart(digest)) == if BadAlgorithm(digest) then Err(BadDigest) else ParseRest(rest, digest)
  {
    var input := rest + DigestPart(digest);
    assert Plain(input);
    TrimPlain(input);
    if digest.Some? {
      assert input == rest + ['@'] + digest.value;
      SplitAt(rest, '@', digest.value);
    } else {
      assert input == rest;
    }
  }

  lemma {:induction false} ParseRestOf(rest: string, host: Option<string>, repo: string, tag: Option<string>,
                                       digest: Option<string>)
    requires SplitRegistry(rest) == (RegistryOf(host), repo + TagPart(tag))
    requires SplitTag(repo + TagPart(tag)) == (repo, tag)
    requires !BadAlgorithm(digest)
    ensures ParseRest(rest, digest) == Meaning(host, repo, tag, digest)
  {
    assert Hub(host) <==> RegistryOf(host) == "docker.io";
  }

  lemma {:induction false} PartsAreClean(host: Option<string>, repo: string, tag: Option<string>)
    requires Parts(host, repo, tag, None)
    ensures var rest := HostPart(host) + (repo + TagPart(tag)); Plain(rest) && '@' !in rest
  {
  }

  lemma {:induction false} WrittenIs(host: Option<string>, repo: string, tag: Option<string>, digest: Option<string>)
    ensures Written(host, repo, tag, digest) == HostPart(host) + (repo + TagPart(tag)) + DigestPart(digest)
  {
  }

  lemma {:induction false} RestMeans(rest: string, host: Option<string>, repo: string, tag: Option<string>,
                                     digest: Option<string>)
    requires Parts(host, repo, tag, None) && rest == HostPart(host) + (repo + TagPart(tag)) && !BadAlgorithm(digest)
    ensures ParseRest(rest, digest) == Meaning(host, repo, tag, digest)
  {
    HostSplits(host, repo, tag);
    TagSplits(repo, tag);
    ParseRestOf(rest, host, repo, tag, digest);
  }

  /** What every form of reference parses to. */
  lemma {:induction false} ParseParts(host: Option<string>, repo: string, tag: Option<string>, digest: Option<string>)
    requires Parts(host, repo, tag, digest) && Written(host, repo, tag, digest) != []
    ensures Parse(Written(host, repo, tag, digest)) == Meaning(host, repo, tag, digest)
  {
    var rest := HostPart(host) + (repo + TagPart(tag));
    WrittenIs(host, repo, tag, digest);
    PartsAreClean(host, repo, tag);
    DigestSplits(rest, digest);
    if !BadAlgorithm(digest) { RestMeans(rest, host, repo, tag, digest); }
  }

  /** White space around a reference is ignored, and nothing but white space is an error of its own. */
  lemma {:induction false} SpaceAround(before: string, s: string, after: string)
    requires Plain(s) && (forall c :: c in before + after ==> IsSpace(c))
    ensures Parse(before + s + after) == if s == [] then Err(Empty) else Parse(s)
  {
    TrimAround(before, s, after);
    TrimPlain(s);
  }

  lemma {:induction false} TrimAround(before: string, s: string, after: string)
    requires Plain(s) && (forall c :: c in before + after ==> IsSpace(c))
    ensures Trim(before + s + after) == s
    decreases |before| + |after|
  {
    var t := before + s + after;
    if before != [] {
      assert t[0] == before[0] && t[1..] == before[1..] + s + after;
      assert before[0] in before + after;
      TrimAround(before[1..], s, after);
    } else if after == [] {
      assert t == s;
      TrimPlain(s);
    } else {
      TrimBehind(s, after);
      assert t == s + after;
    }
  }

  lemma {:induction false} TrimBehind(s: string, after: string)
    requires Plain(s) && (forall c :: c in after ==> IsSpace(c))
    ensures Trim(s + after) == s
    decreases |after|
  {
    var t := s + after;
    if after == [] {
      assert t == s;
      TrimPlain(s);
    } else if s == [] {
      assert t == after && t[1..] == [] + after[1..];
      TrimBehind(s, after[1..]);
    } else {
      var n := |after| - 1;
      assert t[|t| - 1] == after[n] && t[..|t| - 1] == s + after[..n] && t[0] == s[0];
      TrimBehind(s, after[..n]);
    }
  }
}
