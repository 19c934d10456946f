/**
 * `Chef::ChefFS::FileSystem::PoliciesDir`: the `/policies` directory, whose
 * children are `NAME-REVISION.json`, one per revision of every policy the
 * server lists.
 */
module ChefFsPoliciesDir {
  import opened Wrappers
  import opened StringOrder
  import opened RubyHash
  import opened ChefFsRestListDir

  /** A revision document in the listing; its contents are not read. */
  datatype RevisionDoc = RevisionDoc

  /** One policy in the listing: its `uri` and its `revisions` hash. */
  datatype Policy = Policy(uri: string, revisions: Hash<RevisionDoc>)

  /** The revision identifiers of a listed policy, in listing order. */
  function Revisions(data: Hash<Policy>, policy: string): seq<string>
    requires policy in Keys(data)
  {
    Keys(Get(data, policy).revisions)
  }

  /** `"#{policy_name}-#{policy_revision}.json"`. */
  function FileName(policy: string, revision: string): string {
    policy + "-" + revision + ".json"
  }

  /** The file names of one policy's revisions, in the order given. */
  function RevisionNames(policy: string, revisions: seq<string>): seq<string> {
    seq(|revisions|, k requires 0 <= k < |revisions| => FileName(policy, revisions[k]))
  }

  /** The names produced for the policies `ps`, visited in that order. */
  function Blocks(data: Hash<Policy>, ps: seq<string>): seq<string>
    requires forall p <- ps :: p in Keys(data)
    decreases |ps|
  {
    if |ps| == 0 then []
    else
      var last := ps[|ps| - 1];
      Blocks(data, ps[..|ps| - 1]) + RevisionNames(last, Revisions(data, last))
  }

  lemma SortedKeysListed(data: Hash<Policy>)
    ensures forall p <- Sort(Keys(data)) :: p in Keys(data)
  {
    forall p <- Sort(Keys(data)) ensures p in Keys(data) {
      assert p in multiset(Sort(Keys(data)));
    }
  }

  /** All children of a `PoliciesDir` for the listing `data`. */
  function PolicyChildNames(data: Hash<Policy>): seq<string> {
    SortedKeysListed(data);
    Blocks(data, Sort(Keys(data)))
  }

  // ---------------------------------------------------------------------
  // Counting.

  /** Total number of revisions of the policies `ps`. */
  function RevisionCount(data: Hash<Policy>, ps: seq<string>): nat
    requires forall p <- ps :: p in Keys(data)
    decreases |ps|
  {
    if |ps| == 0 then 0
    else RevisionCount(data, ps[..|ps| - 1]) + |Revisions(data, ps[|ps| - 1])|
  }

  lemma {:induction false} BlocksLength(data: Hash<Policy>, ps: seq<string>)
    requires forall p <- ps :: p in Keys(data)
    ensures |Blocks(data, ps)| == RevisionCount(data, ps)
    decreases |ps|
  {
    if |ps| > 0 {
      BlocksLength(data, ps[..|ps| - 1]);
    }
  }

  lemma {:induction false} RevisionCountConcat(data: Hash<Policy>, a: seq<string>, b: seq<string>)
    requires forall p <- a + b :: p in Keys(data)
    ensures RevisionCount(data, a + b) == RevisionCount(data, a) + RevisionCount(data, b)
    decreases |b|
  {
    if |b| == 0 {
      assert a + b == a;
    } else {
      var ab := a + b;
      assert ab[..|ab| - 1] == a + b[..|b| - 1];
      assert ab[|ab| - 1] == b[|b| - 1];
      RevisionCountConcat(data, a, b[..|b| - 1]);
    }
  }

  /** The count does not depend on the order in which policies are visited. */
  lemma {:induction false} RevisionCountPermutation(data: Hash<Policy>, a: seq<string>, b: seq<string>)
    requires forall p <- a :: p in Keys(data)
    requires multiset(a) == multiset(b)
    ensures forall p <- b :: p in Keys(data)
    ensures RevisionCount(data, a) == RevisionCount(data, b)
    decreases |a|
  {
    forall p <- b ensures p in Keys(data) {
      assert p in multiset(b);
    }
    if |a| > 0 {
      var init, last := a[..|a| - 1], a[|a| - 1];
      assert a == init + [last];
      assert multiset(init) == multiset(a) - multiset{last};
      assert last in multiset(b);
      var k :| 0 <= k < |b| && b[k] == last;
      RemoveAtCount(data, b, k);
      RevisionCountPermutation(data, init, b[..k] + b[k + 1..]);
    }
  }

  /** Taking one policy out of the visiting order lowers the count by its
      revisions. */
  lemma RemoveAtCount(data: Hash<Policy>, b: seq<string>, k: nat)
    requires forall p <- b :: p in Keys(data)
    requires k < |b|
    ensures multiset(b[..k] + b[k + 1..]) == multiset(b) - multiset{b[k]}
    ensures forall p <- b[..k] + b[k + 1..] :: p in Keys(data)
    ensures RevisionCount(data, b) == RevisionCount(data, b[..k] + b[k + 1..]) + |Revisions(data, b[k])|
  {
    assert b == b[..k] + [b[k]] + b[k + 1..];
    assert multiset(b) == multiset(b[..k]) + multiset{b[k]} + multiset(b[k + 1..]);
    RevisionCountConcat(data, b[..k] + [b[k]], b[k + 1..]);
    RevisionCountConcat(data, b[..k], [b[k]]);
    RevisionCountConcat(data, b[..k], b[k + 1..]);
    assert [b[k]][..0] == [];
  }

  /** One child per revision of every policy, counted in listing order;
      a policy without revisions contributes none. */
  lemma ChildCount(data: Hash<Policy>)
    ensures forall p <- Keys(data) :: p in Keys(data)
    ensures |PolicyChildNames(data)| == RevisionCount(data, Keys(data))
  {
    SortedKeysListed(data);
    BlocksLength(data, Sort(Keys(data)));
    RevisionCountPermutation(data, Sort(Keys(data)), Keys(data));
  }

  // ---------------------------------------------------------------------
  // Order and contiguity.

  lemma {:induction false} BlocksPrefix(data: Hash<Policy>, ps: seq<string>, n: nat)
    requires forall p <- ps :: p in Keys(data)
    requires n <= |ps|
    ensures Blocks(data, ps[..n]) <= Blocks(data, ps)
    decreases |ps| - n
  {
    if n < |ps| {
      BlocksPrefix(data, ps[..|ps| - 1], n);
      assert ps[..|ps| - 1][..n] == ps[..n];
    } else {
      assert ps[..n] == ps;
    }
  }

  /** The children of the `i`-th policy visited occupy one run starting
      after those of every earlier policy, in the order of its revisions. */
  lemma BlockPlacement(data: Hash<Policy>, ps: seq<string>, i: nat)
    requires forall p <- ps :: p in Keys(data)
    requires i < |ps|
    ensures var start := |Blocks(data, ps[..i])|;
      var revs := Revisions(data, ps[i]);
      start + |revs| <= |Blocks(data, ps)| &&
      forall j :: 0 <= j < |revs| ==> Blocks(data, ps)[start + j] == FileName(ps[i], revs[j])
  {
    BlocksPrefix(data, ps, i + 1);
    assert ps[..i + 1][..i] == ps[..i];
  }

  lemma BlocksMonotone(data: Hash<Policy>, ps: seq<string>, i: nat, k: nat)
    requires forall p <- ps :: p in Keys(data)
    requires i < k <= |ps|
    ensures |Blocks(data, ps[..i])| + |Revisions(data, ps[i])| <= |Blocks(data, ps[..k])|
  {
    BlocksPrefix(data, ps[..k], i + 1);
    assert ps[..k][..i + 1] == ps[..i + 1];
    assert ps[..i + 1][..i] == ps[..i];
  }

  /** For any visiting order, the `i`-th policy's run ends no later than the
      runs of the first `k` policies. */
  lemma BlocksRun(data: Hash<Policy>, ps: seq<string>, i: nat, k: nat)
    requires forall p <- ps :: p in Keys(data)
    requires i < k <= |ps|
    ensures var start := |Blocks(data, ps[..i])|;
      var revs := Revisions(data, ps[i]);
      start + |revs| <= |Blocks(data, ps[..k])| <= |Blocks(data, ps)| &&
      forall j :: 0 <= j < |revs| ==> Blocks(data, ps)[start + j] == FileName(ps[i], revs[j])
  {
    BlockPlacement(data, ps, i);
    BlocksMonotone(data, ps, i, k);
    BlocksPrefix(data, ps, k);
  }

  /** `keys.sort`: the order in which the policies are visited. */
  function VisitOrder(data: Hash<Policy>): (ps: seq<string>)
    ensures |ps| == |Keys(data)| && Sorted(ps)
    ensures forall p <- ps :: p in Keys(data)
  {
    SortedKeysListed(data);
    Sort(Keys(data))
  }

  /** Policies are taken in ascending name order, each policy's revisions
      in listing order, and a policy's children form one run that ends
      before the run of any policy with a greater name. */
  lemma ChildOrder(data: Hash<Policy>, i: nat, k: nat)
    requires i < k <= |Keys(data)|
    ensures var ps := VisitOrder(data);
      ps == Sort(Keys(data)) && Sorted(ps) &&
      var start := |Blocks(data, ps[..i])|;
      var revs := Revisions(data, ps[i]);
      start + |revs| <= |Blocks(data, ps[..k])| <= |PolicyChildNames(data)| &&
      forall j :: 0 <= j < |revs| ==> PolicyChildNames(data)[start + j] == FileName(ps[i], revs[j])
  {
    BlocksRun(data, VisitOrder(data), i, k);
  }

  /** A name is a child exactly when it is `POLICY-REVISION.json` for a
      listed policy and one of its revisions. */
  lemma {:induction false} BlocksMembership(data: Hash<Policy>, ps: seq<string>, name: string)
    requires forall p <- ps :: p in Keys(data)
    ensures name in Blocks(data, ps) <==>
      exists p, r :: p in ps && r in Revisions(data, p) && name == FileName(p, r)
    decreases |ps|
  {
    if |ps| > 0 {
      var init, last := ps[..|ps| - 1], ps[|ps| - 1];
      assert ps == init + [last];
      BlocksMembership(data, init, name);
      var here := RevisionNames(last, Revisions(data, last));
      if name in here {
        var j :| 0 <= j < |here| && here[j] == name;
        assert Revisions(data, last)[j] in Revisions(data, last);
      }
      if exists p, r :: p in ps && r in Revisions(data, p) && name == FileName(p, r) {
        var p, r :| p in ps && r in Revisions(data, p) && name == FileName(p, r);
        if p !in init {
          assert p == last;
          var j :| 0 <= j < |Revisions(data, last)| && Revisions(data, last)[j] == r;
          assert here[j] == name;
        }
      }
    }
  }

  lemma ChildMembership(data: Hash<Policy>, name: string)
    ensures forall p <- Keys(data) :: p in Keys(data)
    ensures name in PolicyChildNames(data) <==>
      exists p, r :: p in Keys(data) && r in Revisions(data, p) && name == FileName(p, r)
  {
    SortedKeysListed(data);
    var ps := Sort(Keys(data));
    BlocksMembership(data, ps, name);
    forall p ensures p in ps <==> p in Keys(data) {
      assert p in ps <==> p in multiset(ps);
    }
  }

  /** Every child name ends in `.json`, so the directory accepts it. */
  lemma ChildNamesAccepted(data: Hash<Policy>)
    ensures forall n <- PolicyChildNames(data) :: EndsWithJson(n) && CanHaveChild(n, false)
  {
    forall n <- PolicyChildNames(data) ensures EndsWithJson(n) && CanHaveChild(n, false) {
      ChildMembership(data, n);
      var p, r :| p in Keys(data) && r in Revisions(data, p) && n == FileName(p, r);
      assert n[|n| - 5..] == ".json";
      assert JsonAtLineEnd(n, |n| - 5);
    }
  }

  /** The listing of the class comment with its two revisions swapped
      (`1.0.1` listed before `1.0.0`), so that the children show listing
      order rather than sorted order, plus a second policy that has no
      revisions. */
  const ExampleListing: Hash<Policy> := [
    ("foo", Policy("u", [("1.0.1", RevisionDoc), ("1.0.0", RevisionDoc)])),
    ("bar", Policy("v", []))]

  /** Policies sorted, revisions kept in listing order, the policy without
      revisions contributing nothing. */
  lemma ListingExample()
    ensures PolicyChildNames(ExampleListing) == [FileName("foo", "1.0.1"), FileName("foo", "1.0.0")]
  {
    var data := ExampleListing;
    var ps := ["bar", "foo"];
    ExampleOrder();
    ExampleRevisions();
    assert ps[..1] == ["bar"] && ps[..1][..0] == [];
    assert Blocks(data, ps) == Blocks(data, ps[..1]) + RevisionNames("foo", Revisions(data, "foo"));
  }

  lemma ExampleOrder()
    ensures Sort(Keys(ExampleListing)) == ["bar", "foo"]
  {
    assert Keys(ExampleListing) == ["foo", "bar"];
    SortTwo("foo", "bar");
  }

  lemma ExampleRevisions()
    ensures "bar" in Keys(ExampleListing) && Revisions(ExampleListing, "bar") == []
    ensures "foo" in Keys(ExampleListing) && Revisions(ExampleListing, "foo") == ["1.0.1", "1.0.0"]
  {
    var data := ExampleListing;
    assert Keys(data) == ["foo", "bar"];
    assert Keys(data[1..]) == ["bar"];
    assert IndexOf(data[1..], "bar") == 0;
    assert IndexOf(data, "bar") == 1;
    assert IndexOf(data, "foo") == 0;
  }

  lemma SortTwo(x: string, y: string)
    requires Below(y, x)
    ensures Sort([x, y]) == [y, x]
  {
    BelowAsymmetric(y, x);
    BelowIrreflexive(y);
    assert [x, y][1..] == [y];
    assert Sort([y]) == [y] by { assert [y][1..] == []; }
    assert Insert(x, [y]) == [y] + Insert(x, []);
  }

  /** Names need not determine the policy: `a-b` revision `c` and `a`
      revision `b-c` give the same file. */
  lemma FileNamesCollide()
    ensures FileName("a-b", "c") == FileName("a", "b-c")
  {
  }

  // ---------------------------------------------------------------------
  // The directory.

  /** `PolicyRevisionEntry.new(name, parent, exists)`. */
  class PolicyRevisionEntry {
    const name: string
    const parent: PoliciesDir
    const knownToExist: Option<bool>

    constructor (name: string, parent: PoliciesDir, knownToExist: Option<bool>)
      ensures this.name == name && this.parent == parent && this.knownToExist == knownToExist
    {
      this.name := name;
      this.parent := parent;
      this.knownToExist := knownToExist;
    }
  }

  /** The names of policy revision entries: `ChefFsRestListDir.Names` for
      this directory's own entry class. */
  function EntryNames(entries: seq<PolicyRevisionEntry>): (names: seq<string>)
    ensures |names| == |entries|
    ensures forall i :: 0 <= i < |entries| ==> names[i] == entries[i].name
  {
    seq(|entries|, i requires 0 <= i < |entries| => entries[i].name)
  }

  class PoliciesDir {
    const name: string
    const apiPath: string
    /** `@children`: `None` while nothing is memoised. */
    var cache: Option<seq<PolicyRevisionEntry>>

    /** The constructor inherited from `RestListDir`. */
    constructor (name: string, parentApiPath: string, apiPath: Option<string>)
      ensures this.name == name && this.apiPath == ApiPath(name, parentApiPath, apiPath)
      ensures cache == None
    {
      this.name := name;
      this.apiPath := ApiPath(name, parentApiPath, apiPath);
      cache := None;
    }

    /** Always a new entry; the lookup in the cache is computed and dropped. */
    method MakeChildEntry(name: string, knownToExist: Option<bool>) returns (e: PolicyRevisionEntry)
      ensures fresh(e) && e.name == name && e.parent == this && e.knownToExist == knownToExist
    {
      var discarded := if cache.Some? then FirstEntryNamed(cache.value, name) else None;
      e := new PolicyRevisionEntry(name, this, knownToExist);
    }

    /** `children`: the memoised list if there is one, else the flattened
        listing `response` (the server's answer to GET `apiPath`),
        memoised on success. */
    method Children(response: Response<Hash<Policy>>) returns (r: Result<seq<PolicyRevisionEntry>, FsError>)
      modifies this
      ensures old(cache).Some? ==> r == Success(old(cache).value) && cache == old(cache)
      ensures old(cache).None? && response.Failed? ==>
        r == Failure(ChildrenError(response.failure)) && cache == None
      ensures old(cache).None? && response.Fetched? ==>
        && r.Success? && cache == Some(r.value)
        && EntryNames(r.value) == PolicyChildNames(response.body)
        && forall e <- r.value :: fresh(e) && e.parent == this && e.knownToExist == Some(true)
    {
      if cache.Some? {
        return Success(cache.value);
      }
      if response.Failed? {
        return Failure(ChildrenError(response.failure));
      }
      var data := response.body;
      var result: seq<PolicyRevisionEntry> := [];
      var policies := Sort(Keys(data));
      SortedKeysListed(data);
      var i := 0;
      while i < |policies|
        invariant 0 <= i <= |policies|
        invariant EntryNames(result) == Blocks(data, policies[..i])
        invariant forall e <- result :: fresh(e) && e.parent == this && e.knownToExist == Some(true)
      {
        var policy := policies[i];
        var revisions := Revisions(data, policy);
        var j := 0;
        while j < |revisions|
          invariant 0 <= j <= |revisions|
          invariant EntryNames(result) == Blocks(data, policies[..i]) + RevisionNames(policy, revisions[..j])
          invariant forall e <- result :: fresh(e) && e.parent == this && e.knownToExist == Some(true)
        {
          var e := MakeChildEntry(FileName(policy, revisions[j]), Some(true));
          assert RevisionNames(policy, revisions[..j + 1]) == RevisionNames(policy, revisions[..j]) + [e.name];
          result := result + [e];
          j := j + 1;
        }
        assert revisions[..j] == revisions;
        assert policies[..i + 1][..i] == policies[..i];
        i := i + 1;
      }
      assert policies[..i] == policies;
      cache := Some(result);
      r := Success(result);
    }

    /** `create_child(name, file_contents)`: `parses` says whether the
        contents are valid JSON, `write` is the server's reply to the new
        entry's write.  The value the source returns is not modelled. */
    method CreateChild(name: string, parses: bool, write: Reply) returns (r: Outcome<FsError>)
      modifies this
      ensures !parses ==> r == Fail(OperationFailed(CreateChildOp, ParseFailed)) && cache == old(cache)
      ensures parses && write.Rejected? ==> r == Fail(CreateError(write.failure)) && cache == old(cache)
      ensures parses && write.Accepted? ==> r == Pass && cache == None
    {
      if !parses {
        return Fail(OperationFailed(CreateChildOp, ParseFailed));
      }
      var entry := MakeChildEntry(name, Some(true));
      if write.Rejected? {
        return Fail(CreateError(write.failure));
      }
      cache := None;
      r := Pass;
    }
  }

  /** `entries.select { |child| child.name == name }.first`;
      `ChefFsRestListDir.FirstNamed` for policy revision entries. */
  function FirstEntryNamed(entries: seq<PolicyRevisionEntry>, name: string): (r: Option<PolicyRevisionEntry>)
    ensures r.Some? ==> r.value in entries && r.value.name == name
    ensures r.None? ==> name !in EntryNames(entries)
    ensures r.Some? ==> (exists k :: 0 <= k < |entries| && entries[k] == r.value &&
                          forall j :: 0 <= j < k ==> entries[j].name != name)
  {
    if |entries| == 0 then None
    else if entries[0].name == name then Some(entries[0])
    else
      var r := FirstEntryNamed(entries[1..], name);
      assert EntryNames(entries) == [entries[0].name] + EntryNames(entries[1..]);
      assert forall k :: 0 <= k < |entries| - 1 ==> entries[1..][k] == entries[k + 1];
      r
  }
}
