/**
 * `Chef::ChefFS::FileSystem::RestListDir`: a directory of the ChefFS virtual
 * file system backed by one REST endpoint.  The server's answers (to the
 * GET of the listing and to the POST that creates a child) are inputs of
 * the operations; the child list is memoised in a cache field.
 */
module ChefFsRestListDir {
  import opened Wrappers
  import opened StringOrder
  import opened RubyHash

  // ---------------------------------------------------------------------
  // Server replies and the file-system errors they turn into.

  /** How a server call can fail: `Timeout::Error`, or an
      `Net::HTTPServerException` carrying the response code. */
  datatype ServerFailure = Timeout | HttpError(code: string)

  /** The answer to a GET: the decoded body, or a failure. */
  datatype Response<T> = Fetched(body: T) | Failed(failure: ServerFailure)

  /** The answer to a POST (or a PUT made on our behalf). */
  datatype Reply = Accepted | Rejected(failure: ServerFailure)

  /** The operation an `OperationFailedError` names. */
  datatype Op = ChildrenOp | CreateChildOp

  /** Why an operation failed. */
  datatype Cause = TimedOut | UnexpectedStatus(code: string) | ParseFailed | IntegrityFailed(message: string)

  /** `NotFoundError`, `AlreadyExistsError`, `OperationFailedError`. */
  datatype FsError = NotFound | AlreadyExists(op: Op) | OperationFailed(op: Op, cause: Cause)

  /** The rescue clauses around fetching the listing. */
  function ChildrenError(f: ServerFailure): (e: FsError)
    ensures e == NotFound <==> f == HttpError("404")
    ensures e != NotFound ==> e.OperationFailed? && e.op == ChildrenOp
    ensures e == OperationFailed(ChildrenOp, TimedOut) <==> f.Timeout?
    ensures f.HttpError? && f.code != "404" ==> e == OperationFailed(ChildrenOp, UnexpectedStatus(f.code))
  {
    match f
    case Timeout => OperationFailed(ChildrenOp, TimedOut)
    case HttpError(code) =>
      if code == "404" then NotFound else OperationFailed(ChildrenOp, UnexpectedStatus(code))
  }

  /** The rescue clauses around the request that creates a child. */
  function CreateError(f: ServerFailure): (e: FsError)
    ensures e == NotFound <==> f == HttpError("404")
    ensures e.AlreadyExists? <==> f == HttpError("409")
    ensures e.AlreadyExists? ==> e.op == CreateChildOp
    ensures e.OperationFailed? <==> f != HttpError("404") && f != HttpError("409")
    ensures e.OperationFailed? ==> e.op == CreateChildOp
    ensures e == OperationFailed(CreateChildOp, TimedOut) <==> f.Timeout?
  {
    match f
    case Timeout => OperationFailed(CreateChildOp, TimedOut)
    case HttpError(code) =>
      if code == "404" then NotFound
      else if code == "409" then AlreadyExists(CreateChildOp)
      else OperationFailed(CreateChildOp, UnexpectedStatus(code))
  }

  /** Listing and creating treat a failure alike, except that only creating
      knows about a conflict, and each names its own operation. */
  lemma ErrorMappingsAgree(f: ServerFailure)
    ensures f != HttpError("409") ==>
      match (ChildrenError(f), CreateError(f))
      case (NotFound, NotFound) => true
      case (OperationFailed(ChildrenOp, c), OperationFailed(CreateChildOp, d)) => c == d
      case _ => false
    ensures f == HttpError("409") ==>
      ChildrenError(f) == OperationFailed(ChildrenOp, UnexpectedStatus("409"))
  {
  }

  // ---------------------------------------------------------------------
  // The api path fixed by the constructor.

  /** `api_path || (parent.api_path == "" ? name : "#{parent.api_path}/#{name}")`. */
  function ApiPath(name: string, parentApiPath: string, explicit: Option<string>): string {
    match explicit
    case Some(p) => p
    case None => if parentApiPath == "" then name else parentApiPath + "/" + name
  }

  /** Segments joined by `/`; no segments give the empty path. */
  function Join(segments: seq<string>): string
    decreases |segments|
  {
    if |segments| == 0 then ""
    else if |segments| == 1 then segments[0]
    else segments[0] + "/" + Join(segments[1..])
  }

  lemma {:induction false} JoinSnoc(segments: seq<string>, last: string)
    requires |segments| > 0
    ensures Join(segments + [last]) == Join(segments) + "/" + last
    decreases |segments|
  {
    var whole := segments + [last];
    if |segments| == 1 {
      assert whole[1..] == [last];
    } else {
      assert whole[1..] == segments[1..] + [last];
      JoinSnoc(segments[1..], last);
    }
  }

  lemma {:induction false} JoinNonEmpty(segments: seq<string>)
    requires |segments| > 0 && segments[0] != ""
    ensures Join(segments) != ""
  {
    if |segments| > 1 {
      assert |Join(segments)| >= |segments[0]|;
    }
  }

  /** Without an explicit path a directory's path is its parent's path with
      its own name appended as one more segment (the root's path being
      empty); an explicit path is taken as given. */
  lemma ApiPathRule(parentSegments: seq<string>, name: string, explicit: Option<string>)
    requires forall s <- parentSegments :: s != ""
    ensures ApiPath(name, Join(parentSegments), explicit) ==
      if explicit.Some? then explicit.value else Join(parentSegments + [name])
  {
    if explicit.None? && |parentSegments| > 0 {
      assert parentSegments[0] in parentSegments;
      JoinNonEmpty(parentSegments);
      JoinSnoc(parentSegments, name);
    }
  }

  // ---------------------------------------------------------------------
  // Child names.

  predicate EndsWithJson(name: string) {
    |name| >= 5 && name[|name| - 5..] == ".json"
  }

  predicate NoNewline(name: string) {
    forall i :: 0 <= i < |name| ==> name[i] != '\n'
  }

  /** `.json` sits at position `i` and is followed by the end of the
      string or by a newline. */
  predicate JsonAtLineEnd(name: string, i: int) {
    0 <= i && i + 5 <= |name| && name[i..i + 5] == ".json" &&
    (i + 5 == |name| || name[i + 5] == '\n')
  }

  /** `name =~ /\.json$/`: Ruby's `$` matches at the end of the string and
      in front of every newline. */
  predicate MatchesJsonAtLineEnd(name: string) {
    exists i | 0 <= i <= |name| - 5 :: JsonAtLineEnd(name, i)
  }

  /** `can_have_child?(name, is_dir)`. */
  predicate CanHaveChild(name: string, isDir: bool) {
    MatchesJsonAtLineEnd(name) && !isDir
  }

  /** For a name without newlines the test is a plain suffix test. */
  lemma CanHaveChildIsSuffixTest(name: string, isDir: bool)
    requires NoNewline(name)
    ensures CanHaveChild(name, isDir) <==> !isDir && EndsWithJson(name)
  {
    var n := |name|;
    if EndsWithJson(name) {
      assert JsonAtLineEnd(name, n - 5);
    }
    if MatchesJsonAtLineEnd(name) {
      var i :| 0 <= i <= n - 5 && JsonAtLineEnd(name, i);
      assert i + 5 == n;
    }
  }

  /** The anchor also accepts a name that continues after a newline. */
  lemma CanHaveChildAcceptsLineEnd()
    ensures CanHaveChild("a.json\nb", false) && !EndsWithJson("a.json\nb")
  {
    var n := "a.json\nb";
    assert n[1..6] == ".json";
    assert JsonAtLineEnd(n, 1);
  }

  /** `"#{key}.json"` for each key of the listing, keys sorted. */
  function ChildNames(keys: seq<string>): seq<string> {
    var sorted := Sort(keys);
    seq(|sorted|, i requires 0 <= i < |sorted| => sorted[i] + ".json")
  }

  /** A child name without its `.json` suffix. */
  function Stem(name: string): string
    requires EndsWithJson(name)
  {
    name[..|name| - 5]
  }

  function Stems(names: seq<string>): seq<string>
    requires forall n <- names :: EndsWithJson(n)
  {
    seq(|names|, i requires 0 <= i < |names| => Stem(names[i]))
  }

  /** One child per key: each is a `.json` file the directory accepts, and
      stripping the suffix gives the keys back, ascending. */
  lemma ChildNamesFromKeys(keys: seq<string>)
    ensures |ChildNames(keys)| == |keys|
    ensures forall n <- ChildNames(keys) :: EndsWithJson(n) && CanHaveChild(n, false)
    ensures Sorted(Stems(ChildNames(keys)))
    ensures multiset(Stems(ChildNames(keys))) == multiset(keys)
  {
    var names := ChildNames(keys);
    var sorted := Sort(keys);
    forall i | 0 <= i < |names|
      ensures EndsWithJson(names[i]) && CanHaveChild(names[i], false) && Stem(names[i]) == sorted[i]
    {
      var n := names[i];
      assert n == sorted[i] + ".json";
      assert n[|n| - 5..] == ".json";
      assert JsonAtLineEnd(n, |n| - 5);
      assert n[..|n| - 5] == sorted[i];
    }
    assert Stems(names) == sorted;
  }

  /** The children come in THE ascending order of the keys: any ascending
      arrangement of the keys is the one produced. */
  lemma ChildOrderIsCanonical(keys: seq<string>, arranged: seq<string>)
    requires Sorted(arranged) && multiset(arranged) == multiset(keys)
    ensures forall n <- ChildNames(keys) :: EndsWithJson(n)
    ensures Stems(ChildNames(keys)) == arranged
  {
    ChildNamesFromKeys(keys);
    SortedArrangementUnique(Stems(ChildNames(keys)), arranged);
  }

  /** Keys of a hash are distinct, so the keys come strictly ascending and
      no two children share a name. */
  lemma ChildNamesDistinct<V>(listing: Hash<V>)
    ensures forall i, j :: 0 <= i < j < |ChildNames(Keys(listing))| ==>
      Below(Sort(Keys(listing))[i], Sort(Keys(listing))[j]) &&
      ChildNames(Keys(listing))[i] != ChildNames(Keys(listing))[j]
  {
    var keys := Keys(listing);
    SortDistinctStrict(keys);
    var names := ChildNames(keys);
    var sorted := Sort(keys);
    forall i, j | 0 <= i < j < |names| ensures names[i] != names[j] {
      BelowIrreflexive(sorted[i]);
      assert names[i][..|names[i]| - 5] == sorted[i];
      assert names[j][..|names[j]| - 5] == sorted[j];
    }
  }

  // ---------------------------------------------------------------------
  // The directory and its entries.

  /** `RestListEntry.new(name, parent, exists)`. */
  class RestListEntry {
    const name: string
    const parent: RestListDir
    const knownToExist: Option<bool>

    constructor (name: string, parent: RestListDir, knownToExist: Option<bool>)
      ensures this.name == name && this.parent == parent && this.knownToExist == knownToExist
    {
      this.name := name;
      this.parent := parent;
      this.knownToExist := knownToExist;
    }
  }

  /** The names of the entries, in order (`ChefFsPoliciesDir.EntryNames`
      is the same for policy revision entries). */
  function Names(entries: seq<RestListEntry>): (names: seq<string>)
    ensures |names| == |entries|
    ensures forall i :: 0 <= i < |entries| ==> names[i] == entries[i].name
  {
    seq(|entries|, i requires 0 <= i < |entries| => entries[i].name)
  }

  /** `entries.select { |child| child.name == name }.first`. */
  function FirstNamed(entries: seq<RestListEntry>, name: string): (r: Option<RestListEntry>)
    ensures r.Some? ==> r.value in entries && r.value.name == name
    ensures r.None? ==> name !in Names(entries)
    ensures r.Some? ==> (exists k :: 0 <= k < |entries| && entries[k] == r.value &&
                          forall j :: 0 <= j < k ==> entries[j].name != name)
  {
    if |entries| == 0 then None
    else if entries[0].name == name then Some(entries[0])
    else
      var r := FirstNamed(entries[1..], name);
      assert Names(entries) == [entries[0].name] + Names(entries[1..]);
      assert forall k :: 0 <= k < |entries| - 1 ==> entries[1..][k] == entries[k + 1];
      r
  }

  class RestListDir {
    const name: string
    const apiPath: string
    const hasDataHandler: bool
    /** `@children`: `None` while nothing is memoised. */
    var cache: Option<seq<RestListEntry>>

    constructor (name: string, parentApiPath: string, apiPath: Option<string>, hasDataHandler: bool)
      ensures this.name == name && this.apiPath == ApiPath(name, parentApiPath, apiPath)
      ensures this.hasDataHandler == hasDataHandler && cache == None
    {
      this.name := name;
      this.apiPath := ApiPath(name, parentApiPath, apiPath);
      this.hasDataHandler := hasDataHandler;
      cache := None;
    }

    /** Always a new entry; the lookup in the cache is computed and dropped. */
    method MakeChildEntry(name: string, knownToExist: Option<bool>) returns (e: RestListEntry)
      ensures fresh(e) && e.name == name && e.parent == this && e.knownToExist == knownToExist
    {
      var discarded := if cache.Some? then FirstNamed(cache.value, name) else None;
      e := new RestListEntry(name, this, knownToExist);
    }

    /** `children`: the memoised list if there is one, else one entry per
        key of `response` (the server's answer to GET `apiPath`), memoised
        on success. */
    method Children(response: Response<Hash<string>>) returns (r: Result<seq<RestListEntry>, FsError>)
      modifies this
      ensures old(cache).Some? ==> r == Success(old(cache).value) && cache == old(cache)
      ensures old(cache).None? && response.Failed? ==>
        r == Failure(ChildrenError(response.failure)) && cache == None
      ensures old(cache).None? && response.Fetched? ==>
        && r.Success? && cache == Some(r.value)
        && Names(r.value) == ChildNames(Keys(response.body))
        && forall e <- r.value :: fresh(e) && e.parent == this && e.knownToExist == Some(true)
    {
      if cache.Some? {
        return Success(cache.value);
      }
      if response.Failed? {
        return Failure(ChildrenError(response.failure));
      }
      var keys := Sort(Keys(response.body));
      var entries: seq<RestListEntry> := [];
      for i := 0 to |keys|
        invariant |entries| == i
        invariant forall k :: 0 <= k < i ==> entries[k].name == keys[k] + ".json"
        invariant forall e <- entries :: fresh(e) && e.parent == this && e.knownToExist == Some(true)
      {
        var e := MakeChildEntry(keys[i] + ".json", Some(true));
        entries := entries + [e];
      }
      cache := Some(entries);
      r := Success(entries);
    }

    /** `create_child(name, file_contents)`. `parses` says whether the
        contents are valid JSON; `integrity` is the complaint the data
        handler raises about them, if any; `post` is the server's reply to
        the POST to `apiPath`. */
    method CreateChild(name: string, parses: bool, integrity: Option<string>, post: Reply)
      returns (r: Result<RestListEntry, FsError>)
      modifies this
      ensures !parses ==>
        r == Failure(OperationFailed(CreateChildOp, ParseFailed)) && cache == old(cache)
      ensures parses && hasDataHandler && integrity.Some? ==>
        r == Failure(OperationFailed(CreateChildOp, IntegrityFailed(integrity.value))) && cache == old(cache)
      ensures parses && !(hasDataHandler && integrity.Some?) && post.Rejected? ==>
        r == Failure(CreateError(post.failure)) && cache == old(cache)
      ensures parses && !(hasDataHandler && integrity.Some?) && post.Accepted? ==>
        && r.Success? && fresh(r.value) && r.value.name == name
        && r.value.parent == this && r.value.knownToExist == Some(true)
        && cache == None
    {
      if !parses {
        return Failure(OperationFailed(CreateChildOp, ParseFailed));
      }
      var entry := MakeChildEntry(name, Some(true));
      if hasDataHandler && integrity.Some? {
        return Failure(OperationFailed(CreateChildOp, IntegrityFailed(integrity.value)));
      }
      if post.Rejected? {
        return Failure(CreateError(post.failure));
      }
      cache := None;
      r := Success(entry);
    }
  }

  /** What a caller sees: a second listing is the first one, whatever the
      server would say; after a child is created the next listing is
      fetched again. */
  method CacheScenario(dir: RestListDir, first: Hash<string>, later: Response<Hash<string>>, again: Hash<string>)
    requires dir.cache == None
    modifies dir
  {
    var a := dir.Children(Fetched(first));
    var b := dir.Children(later);
    assert a == b && a.Success?;
    var c := dir.CreateChild("x.json", true, None, Accepted);
    assert dir.cache == None;
    var d := dir.Children(Fetched(again));
    assert d.Success? && Names(d.value) == ChildNames(Keys(again));
  }
}
