/** The write-once run store (cloud/src/api.rs:500-605, cloud/migrations/0001_init.sql): what one
    `sync_run` request does to the committed tables, taken as a whole. That concurrent requests
    behave this way is shown in RunProtocol. */
module RunStore {
  import opened Prelude

  datatype Key = Key(project: string, run: string)

  datatype LinkKey = LinkKey(project: string, localProject: string)

  datatype Search = Search(digest: string, text: string)

  /** A synced run: its core digest and texts, and the search result it may gain later. */
  datatype Row = Row(localProject: string, core: string, content: string, search: Option<Search>, summary: string, syncedBy: string)

  /** A verified document as the handler receives it. */
  datatype Document = Document(
    key: Key, localProject: string, core: string, content: string, search: Option<Search>, summary: string, syncedBy: string)

  datatype Outcome = Created | SearchAttached | Unchanged | Conflict

  datatype Store = Store(runs: map<Key, Row>, links: map<LinkKey, string>)

  function RowOf(d: Document): Row {
    Row(d.localProject, d.core, d.content, d.search, d.summary, d.syncedBy)
  }

  function LinkOf(d: Document): LinkKey {
    LinkKey(d.key.project, d.localProject)
  }

  function SearchDigest(search: Option<Search>): Option<string> {
    match search case None => None case Some(s) => Some(s.digest)
  }

  function Attach(row: Row, d: Document): Row {
    row.(search := d.search, summary := d.summary)
  }

  /** How the handler answers. */
  function Answer(store: Store, d: Document): Outcome {
    if d.key !in store.runs then Created
    else
      var row := store.runs[d.key];
      if row.core != d.core then Conflict
      else
        match (row.search, d.search)
        case (None, Some(_)) => SearchAttached
        case (Some(saved), Some(sent)) => if saved.digest != sent.digest then Conflict else Unchanged
        case _ => Unchanged
  }

  function WithLink(links: map<LinkKey, string>, l: LinkKey, who: string): map<LinkKey, string> {
    if l in links then links else links[l := who]
  }

  /** The committed tables afterwards. */
  function Synced(store: Store, d: Document): Store {
    match Answer(store, d)
    case Conflict => store
    case Created => Store(store.runs[d.key := RowOf(d)], WithLink(store.links, LinkOf(d), d.syncedBy))
    case SearchAttached => Store(store.runs[d.key := Attach(store.runs[d.key], d)], WithLink(store.links, LinkOf(d), d.syncedBy))
    case Unchanged => Store(store.runs, WithLink(store.links, LinkOf(d), d.syncedBy))
  }

  /** The tables themselves, with the handler running alone. */
  class Database {
    var runs: map<Key, Row>
    var links: map<LinkKey, string>

    constructor ()
      ensures Contents() == Store(map[], map[])
    {
      runs := map[];
      links := map[];
    }

    function Contents(): Store
      reads this
    {
      Store(runs, links)
    }

    /** Link a local project, keeping an existing link as it is. */
    method RecordLink(l: LinkKey, who: string)
      modifies this`links
      ensures links == WithLink(old(links), l, who)
    {
      if l !in links {
        links := links[l := who];
      }
    }

    /** Insert the run, or reconcile the document with the run already there. */
    method SyncRun(d: Document) returns (status: Outcome)
      modifies this
      ensures status == Answer(old(Contents()), d)
      ensures Contents() == Synced(old(Contents()), d)
    {
      if d.key !in runs {
        runs := runs[d.key := RowOf(d)];
        status := Created;
      } else {
        var existing := runs[d.key];
        if existing.core != d.core {
          return Conflict;
        }
        if existing.search == None && d.search.Some? {
          runs := runs[d.key := Attach(existing, d)];
          status := SearchAttached;
        } else if existing.search.Some? && d.search.Some? && existing.search.value.digest != d.search.value.digest {
          return Conflict;
        } else {
          status := Unchanged;
        }
      }
      RecordLink(LinkOf(d), d.syncedBy);
    }
  }

  // ---- what one request says and writes ---------------------------------------------------------------------

  /** The four answers, each by what is stored and what is sent. */
  lemma AnswerMeans(store: Store, d: Document)
    ensures Answer(store, d) == Created <==> d.key !in store.runs
    ensures Answer(store, d) == Conflict <==>
      d.key in store.runs
      && (store.runs[d.key].core != d.core
          || (store.runs[d.key].search.Some? && d.search.Some? && store.runs[d.key].search.value.digest != d.search.value.digest))
    ensures Answer(store, d) == SearchAttached <==>
      d.key in store.runs && store.runs[d.key].core == d.core && store.runs[d.key].search == None && d.search.Some?
  {
  }

  /** A created row is the document's in every field. */
  predicate Copies(row: Row, d: Document) {
    && row.localProject == d.localProject && row.core == d.core && row.content == d.content
    && row.search == d.search && row.summary == d.summary && row.syncedBy == d.syncedBy
  }

  /** A search is attached with its text and the new summary; everything else of the row is as it was. */
  predicate Attaches(before: Row, after: Row, d: Document) {
    && after.search == d.search && after.summary == d.summary
    && after.localProject == before.localProject && after.core == before.core
    && after.content == before.content && after.syncedBy == before.syncedBy
  }

  /** What a request writes: its own row, where it created one or attached a search, and its link, unless
      refused. The link names the sender if it is new. */
  lemma SyncWrites(store: Store, d: Document)
    ensures var next, l := Synced(store, d), LinkKey(d.key.project, d.localProject);
      && (Answer(store, d) == Created ==> d.key in next.runs && Copies(next.runs[d.key], d))
      && (Answer(store, d) == SearchAttached ==>
            d.key in store.runs && d.key in next.runs && Attaches(store.runs[d.key], next.runs[d.key], d))
      && (Answer(store, d) == Unchanged || Answer(store, d) == Conflict ==> next.runs == store.runs)
      && (forall k :: k != d.key ==> (k in next.runs <==> k in store.runs) && (k in store.runs ==> next.runs[k] == store.runs[k]))
      && (Answer(store, d) == Conflict ==> next.links == store.links)
      && (Answer(store, d) != Conflict ==>
            l in next.links && next.links == store.links[l := next.links[l]]
            && next.links[l] == (if l in store.links then store.links[l] else d.syncedBy))
  {
  }

  // ---- immutability ------------------------------------------------------------------------------------

  /** The change the table allows: only an absent search may appear, and the summary moves only with it. */
  predicate UpdateAllowed(a: Row, b: Row) {
    && b.core == a.core && b.localProject == a.localProject && b.content == a.content && b.syncedBy == a.syncedBy
    && (a.search.Some? ==> b.search == a.search)
    && (b.search == a.search ==> b.summary == a.summary)
  }

  /** `b` is the store some time after `a`: nothing removed, nothing rewritten. */
  ghost predicate Extends(a: Store, b: Store) {
    && (forall k :: k in a.runs ==> k in b.runs && UpdateAllowed(a.runs[k], b.runs[k]))
    && (forall l :: l in a.links ==> l in b.links && b.links[l] == a.links[l])
  }

  lemma ExtendsReflexive(a: Store)
    ensures Extends(a, a)
  {
  }

  lemma ExtendsTransitive(a: Store, b: Store, c: Store)
    requires Extends(a, b) && Extends(b, c)
    ensures Extends(a, c)
  {
  }

  /** One sync only ever extends the store, and a conflict leaves it alone, links included. */
  lemma SyncExtends(store: Store, d: Document)
    ensures Extends(store, Synced(store, d))
    ensures Answer(store, d) == Conflict ==> Synced(store, d) == store
    ensures Answer(store, d) != Conflict ==> Holds(Synced(store, d), d)
  {
  }

  /** The document's run, search and link are all stored. */
  predicate Holds(store: Store, d: Document) {
    && d.key in store.runs
    && store.runs[d.key].core == d.core
    && (d.search.Some? ==> SearchDigest(store.runs[d.key].search) == SearchDigest(d.search))
    && LinkOf(d) in store.links
  }

  lemma HoldsForever(a: Store, b: Store, d: Document)
    requires Extends(a, b) && Holds(a, d)
    ensures Holds(b, d)
  {
  }

  /** A stored document is answered unchanged, and re-sending it changes nothing; nothing else is
      answered so without a link being added. */
  lemma ResendIsUnchanged(store: Store, d: Document)
    ensures Holds(store, d) <==> Answer(store, d) == Unchanged && Synced(store, d) == store
  {
  }

  // ---- order independence ---------------------------------------------------------------------------------

  function SyncAll(store: Store, ds: seq<Document>): Store {
    if ds == [] then store else Synced(SyncAll(store, ds[..|ds| - 1]), ds[|ds| - 1])
  }

  predicate SearchesAgree(a: Option<Search>, b: Option<Search>) {
    a.Some? && b.Some? ==> a.value.digest == b.value.digest
  }

  /** No two documents contradict each other about one run. */
  predicate Compatible(a: Document, b: Document) {
    a.key == b.key ==> a.core == b.core && SearchesAgree(a.search, b.search)
  }

  predicate CompatibleRow(store: Store, d: Document) {
    d.key in store.runs ==> store.runs[d.key].core == d.core && SearchesAgree(store.runs[d.key].search, d.search)
  }

  ghost predicate AllCompatible(store: Store, ds: seq<Document>) {
    && (forall a, b :: a in ds && b in ds ==> Compatible(a, b))
    && (forall d :: d in ds ==> CompatibleRow(store, d))
  }

  predicate Named(ds: seq<Document>, k: Key) {
    exists d :: d in ds && d.key == k
  }

  predicate Supplied(ds: seq<Document>, k: Key, digest: string) {
    exists d :: d in ds && d.key == k && SearchDigest(d.search) == Some(digest)
  }

  predicate HasSearch(store: Store, k: Key, digest: string) {
    k in store.runs && SearchDigest(store.runs[k].search) == Some(digest)
  }

  ghost predicate RunsExplained(t: Store, store: Store, ds: seq<Document>) {
    forall k :: k in t.runs <==> k in store.runs || Named(ds, k)
  }

  ghost predicate CoresExplained(t: Store, store: Store, ds: seq<Document>) {
    && (forall k :: k in store.runs && k in t.runs ==> t.runs[k].core == store.runs[k].core)
    && (forall d :: d in ds && d.key in t.runs ==> t.runs[d.key].core == d.core)
  }

  ghost predicate SearchesExplained(t: Store, store: Store, ds: seq<Document>) {
    forall k, x :: HasSearch(t, k, x) <==> HasSearch(store, k, x) || Supplied(ds, k, x)
  }

  ghost predicate LinksExplained(t: Store, store: Store, ds: seq<Document>) {
    forall l :: l in t.links <==> l in store.links || exists d :: d in ds && LinkOf(d) == l
  }

  /** The digests in `t` are those of `store` together with what the documents supply. */
  ghost predicate Explained(t: Store, store: Store, ds: seq<Document>) {
    && RunsExplained(t, store, ds)
    && CoresExplained(t, store, ds)
    && SearchesExplained(t, store, ds)
    && LinksExplained(t, store, ds)
  }

  lemma Accepted(t: Store, d: Document)
    requires CompatibleRow(t, d)
    ensures var u := Synced(t, d);
      && Answer(t, d) != Conflict
      && (forall k :: k in u.runs <==> k in t.runs || k == d.key)
      && (forall k :: k in t.runs ==> u.runs[k].core == t.runs[k].core)
      && u.runs[d.key].core == d.core
      && (forall k, x :: HasSearch(u, k, x) <==> HasSearch(t, k, x) || (k == d.key && SearchDigest(d.search) == Some(x)))
      && (forall l :: l in u.links <==> l in t.links || l == LinkOf(d))
  {
  }

  lemma NamedPush(init: seq<Document>, d: Document)
    ensures forall k :: Named(init + [d], k) <==> Named(init, k) || d.key == k
    ensures forall k, x :: Supplied(init + [d], k, x) <==> Supplied(init, k, x) || (d.key == k && SearchDigest(d.search) == Some(x))
  {
  }

  lemma ExplainedIsCompatible(t: Store, store: Store, ds: seq<Document>, d: Document)
    requires Explained(t, store, ds) && CompatibleRow(store, d) && forall e :: e in ds ==> Compatible(e, d)
    ensures CompatibleRow(t, d)
  {
    if d.key in t.runs {
      var row := t.runs[d.key];
      if row.search.Some? && d.search.Some? {
        var x := row.search.value.digest;
        assert HasSearch(t, d.key, x);
        if Supplied(ds, d.key, x) {
          var e :| e in ds && e.key == d.key && SearchDigest(e.search) == Some(x);
        }
      }
      if d.key !in store.runs {
        assert Named(ds, d.key);
      }
    }
  }

  lemma LinksPush(t: Store, store: Store, init: seq<Document>, last: Document)
    requires LinksExplained(t, store, init) && CompatibleRow(t, last)
    ensures LinksExplained(Synced(t, last), store, init + [last])
  {
  }

  lemma CoresPush(t: Store, store: Store, init: seq<Document>, last: Document)
    requires RunsExplained(t, store, init) && CoresExplained(t, store, init) && CompatibleRow(t, last) && CompatibleRow(store, last)
    requires forall e :: e in init ==> Compatible(e, last)
    ensures CoresExplained(Synced(t, last), store, init + [last])
  {
  }

  lemma SearchesPush(t: Store, store: Store, init: seq<Document>, last: Document)
    requires SearchesExplained(t, store, init) && CompatibleRow(t, last)
    ensures SearchesExplained(Synced(t, last), store, init + [last])
  {
    Accepted(t, last);
    NamedPush(init, last);
    hide Synced, HasSearch, LinkOf, CompatibleRow, SearchDigest, Supplied, Named;
  }

  lemma RunsPush(t: Store, store: Store, init: seq<Document>, last: Document)
    requires RunsExplained(t, store, init) && CompatibleRow(t, last)
    ensures RunsExplained(Synced(t, last), store, init + [last])
  {
  }

  lemma ExplainedPush(t: Store, store: Store, init: seq<Document>, last: Document)
    requires Explained(t, store, init) && CompatibleRow(t, last) && CompatibleRow(store, last)
    requires forall e :: e in init ==> Compatible(e, last)
    ensures Explained(Synced(t, last), store, init + [last])
  {
    hide RunsExplained, CoresExplained, SearchesExplained, LinksExplained, Synced, CompatibleRow, Compatible;
    RunsPush(t, store, init, last);
    CoresPush(t, store, init, last);
    SearchesPush(t, store, init, last);
    LinksPush(t, store, init, last);
  }

  lemma {:induction false} SyncAllExplained(store: Store, ds: seq<Document>)
    requires AllCompatible(store, ds)
    ensures Explained(SyncAll(store, ds), store, ds)
  {
    if ds != [] {
      var init, last := ds[..|ds| - 1], ds[|ds| - 1];
      assert ds == init + [last] && last in ds;
      assert forall e :: e in init ==> e in ds;
      hide CompatibleRow, Compatible, Synced, Explained;
      SyncAllExplained(store, init);
      ExplainedIsCompatible(SyncAll(store, init), store, init, last);
      ExplainedPush(SyncAll(store, init), store, init, last);
    }
  }

  /** What the store says about a run, texts aside. */
  function Digests(store: Store): map<Key, (string, Option<string>)> {
    map k | k in store.runs :: (store.runs[k].core, SearchDigest(store.runs[k].search))
  }

  lemma SameDigests(a: Store, b: Store, store: Store, p: seq<Document>, q: seq<Document>)
    requires Explained(a, store, p) && Explained(b, store, q) && forall d :: d in p <==> d in q
    ensures Digests(a) == Digests(b) && a.links.Keys == b.links.Keys
  {
    forall k ensures Named(p, k) <==> Named(q, k) {
    }
    forall k, x ensures Supplied(p, k, x) <==> Supplied(q, k, x) {
    }
    assert a.runs.Keys == b.runs.Keys;
    forall k | k in a.runs ensures a.runs[k].core == b.runs[k].core {
      if k !in store.runs {
        var d :| d in p && d.key == k;
      }
    }
    forall k | k in a.runs ensures SearchDigest(a.runs[k].search) == SearchDigest(b.runs[k].search) {
      SearchDecided(a, b, k);
    }
    assert Digests(a).Keys == Digests(b).Keys;
    assert a.links.Keys == b.links.Keys by {
      forall l ensures l in a.links <==> l in b.links {
      }
    }
    hide Named, Supplied, HasSearch;
  }

  lemma SearchDecided(a: Store, b: Store, k: Key)
    requires k in a.runs && k in b.runs && forall x :: HasSearch(a, k, x) <==> HasSearch(b, k, x)
    ensures SearchDigest(a.runs[k].search) == SearchDigest(b.runs[k].search)
  {
    if a.runs[k].search.Some? {
      assert HasSearch(a, k, a.runs[k].search.value.digest);
    }
    if b.runs[k].search.Some? {
      assert HasSearch(b, k, b.runs[k].search.value.digest);
    }
  }

  lemma CompatibleForgetsOrder(store: Store, p: seq<Document>, q: seq<Document>)
    requires AllCompatible(store, p) && forall d :: d in p <==> d in q
    ensures Digests(SyncAll(store, p)) == Digests(SyncAll(store, q))
    ensures SyncAll(store, p).links.Keys == SyncAll(store, q).links.Keys
  {
    SyncAllExplained(store, p);
    SyncAllExplained(store, q);
    hide SyncAll, Explained, Digests;
    SameDigests(SyncAll(store, p), SyncAll(store, q), store, p, q);
  }

  lemma {:induction false} SyncAllExtends(store: Store, ds: seq<Document>)
    ensures Extends(store, SyncAll(store, ds))
  {
    if ds != [] {
      SyncAllExtends(store, ds[..|ds| - 1]);
      SyncExtends(SyncAll(store, ds[..|ds| - 1]), ds[|ds| - 1]);
      hide Synced, Holds;
      ExtendsTransitive(store, SyncAll(store, ds[..|ds| - 1]), SyncAll(store, ds));
    }
  }

  // A document the stored row already refuses plays no part, whenever it arrives.

  /** The documents the stored rows do not refuse. */
  function Live(store: Store, ds: seq<Document>): seq<Document> {
    if ds == [] then []
    else Live(store, ds[..|ds| - 1]) + (if CompatibleRow(store, ds[|ds| - 1]) then [ds[|ds| - 1]] else [])
  }

  lemma {:induction false} LiveMembers(store: Store, ds: seq<Document>)
    ensures forall d :: d in Live(store, ds) <==> d in ds && CompatibleRow(store, d)
  {
    hide CompatibleRow;
    if ds != [] {
      LiveMembers(store, ds[..|ds| - 1]);
      assert forall d :: d in ds <==> d in ds[..|ds| - 1] || d == ds[|ds| - 1];
    }
  }

  lemma RefusedForever(store: Store, later: Store, d: Document)
    requires Extends(store, later) && !CompatibleRow(store, d)
    ensures Answer(later, d) == Conflict
  {
  }

  lemma {:induction false} OnlyLiveMatter(store: Store, ds: seq<Document>)
    ensures SyncAll(store, ds) == SyncAll(store, Live(store, ds))
  {
    if ds != [] {
      var init, last := ds[..|ds| - 1], ds[|ds| - 1];
      OnlyLiveMatter(store, init);
      SyncAllExtends(store, init);
      if CompatibleRow(store, last) {
        assert Live(store, ds)[..|Live(store, ds)| - 1] == Live(store, init);
      } else {
        assert Live(store, ds) == Live(store, init);
        RefusedForever(store, SyncAll(store, init), last);
      }
      hide CompatibleRow, Extends, Answer;
    }
  }

  /** No two of the documents that can be accepted contradict each other. */
  ghost predicate LiveCompatible(store: Store, ds: seq<Document>) {
    forall a, b :: a in ds && b in ds && CompatibleRow(store, a) && CompatibleRow(store, b) ==> Compatible(a, b)
  }

  /** Any two orders of such documents, repeats and refused ones included, end in the same digests and links. */
  lemma SyncForgetsOrder(store: Store, p: seq<Document>, q: seq<Document>)
    requires LiveCompatible(store, p) && forall d :: d in p <==> d in q
    ensures Digests(SyncAll(store, p)) == Digests(SyncAll(store, q))
    ensures SyncAll(store, p).links.Keys == SyncAll(store, q).links.Keys
  {
    LiveMembers(store, p);
    LiveMembers(store, q);
    OnlyLiveMatter(store, p);
    OnlyLiveMatter(store, q);
    hide SyncAll, Live, CompatibleRow, Compatible, Digests;
    CompatibleForgetsOrder(store, Live(store, p), Live(store, q));
  }

  // Conversely, two contradicting documents that could both be accepted settle by arrival order.

  lemma {:induction false} SyncAllFirst(store: Store, a: Document, rest: seq<Document>)
    ensures SyncAll(store, [a] + rest) == SyncAll(Synced(store, a), rest)
  {
    hide Synced;
    if rest == [] {
      assert [a] + rest == [a] && [a][..0] == [];
      assert SyncAll(store, []) == store;
    } else {
      assert ([a] + rest)[..|rest|] == [a] + rest[..|rest| - 1];
      SyncAllFirst(store, a, rest[..|rest| - 1]);
    }
  }

  /** What the first document of its run says is what the store says ever after. */
  lemma FirstStays(store: Store, a: Document, rest: seq<Document>)
    requires CompatibleRow(store, a)
    ensures var t := SyncAll(store, [a] + rest);
      && a.key in t.runs && t.runs[a.key].core == a.core
      && (a.search.Some? ==> SearchDigest(t.runs[a.key].search) == Some(a.search.value.digest))
      && (a.key !in store.runs ==> t.runs[a.key].localProject == a.localProject)
  {
    SyncAllFirst(store, a, rest);
    SyncAllExtends(Synced(store, a), rest);
    hide SyncAll;
  }

  lemma SplitAt<T>(s: seq<T>, x: T) returns (rest: seq<T>)
    requires x in s
    ensures multiset(s) == multiset{x} + multiset(rest)
    ensures forall y :: y in s && y != x ==> y in rest
  {
    var i :| 0 <= i < |s| && s[i] == x;
    rest := s[..i] + s[i + 1..];
    assert s == s[..i] + [s[i]] + s[i + 1..];
  }

  /** Two different documents of a list can be made to arrive first, in either order. */
  lemma BothOrders(p: seq<Document>, a: Document, b: Document) returns (rest: seq<Document>)
    requires a in p && b in p && a != b
    ensures multiset([a] + ([b] + rest)) == multiset(p) && multiset([b] + ([a] + rest)) == multiset(p)
  {
    var some := SplitAt(p, a);
    rest := SplitAt(some, b);
    assert multiset([a] + ([b] + rest)) == multiset{a} + (multiset{b} + multiset(rest));
    assert multiset([b] + ([a] + rest)) == multiset{b} + (multiset{a} + multiset(rest));
  }

  ghost predicate DigestsForgetOrder(store: Store, p: seq<Document>) {
    forall q :: multiset(q) == multiset(p) ==> Digests(SyncAll(store, q)) == Digests(SyncAll(store, p))
  }

  lemma DigestsDiffer(store: Store, a: Document, b: Document, rest: seq<Document>)
    requires CompatibleRow(store, a) && CompatibleRow(store, b) && !Compatible(a, b)
    ensures Digests(SyncAll(store, [a] + ([b] + rest))) != Digests(SyncAll(store, [b] + ([a] + rest)))
  {
    FirstStays(store, a, [b] + rest);
    FirstStays(store, b, [a] + rest);
    var t, u := SyncAll(store, [a] + ([b] + rest)), SyncAll(store, [b] + ([a] + rest));
    assert a.key in Digests(t) && a.key in Digests(u);
    hide SyncAll, CompatibleRow;
  }

  lemma SameMultisetSameMembers(p: seq<Document>, q: seq<Document>)
    requires multiset(p) == multiset(q)
    ensures forall d :: d in p <==> d in q
  {
    forall d ensures d in p <==> d in q {
      assert d in multiset(p) <==> d in multiset(q);
    }
  }

  /** Exactly when the final digests do not depend on the order of arrival. */
  lemma DigestsForgetOrderWhen(store: Store, p: seq<Document>)
    ensures DigestsForgetOrder(store, p) <==> LiveCompatible(store, p)
  {
    hide SyncAll, Digests, CompatibleRow;
    if LiveCompatible(store, p) {
      forall q | multiset(q) == multiset(p) ensures Digests(SyncAll(store, q)) == Digests(SyncAll(store, p)) {
        SameMultisetSameMembers(p, q);
        SyncForgetsOrder(store, p, q);
      }
    } else {
      var a, b :| a in p && b in p && CompatibleRow(store, a) && CompatibleRow(store, b) && !Compatible(a, b);
      var rest := BothOrders(p, a, b);
      DigestsDiffer(store, a, b, rest);
    }
  }

  /** The local project each run names. */
  function Projects(store: Store): map<Key, string> {
    map k | k in store.runs :: store.runs[k].localProject
  }

  ghost predicate ProjectsForgetOrder(store: Store, p: seq<Document>) {
    forall q :: multiset(q) == multiset(p) ==> Projects(SyncAll(store, q)) == Projects(SyncAll(store, p))
  }

  /** The documents of each run not stored yet come from one local project. */
  ghost predicate OneProjectEach(store: Store, p: seq<Document>) {
    forall a, b :: a in p && b in p && a.key == b.key && a.key !in store.runs ==> a.localProject == b.localProject
  }

  ghost predicate ProjectsExplained(t: Store, store: Store, ds: seq<Document>) {
    && (forall k :: k in t.runs <==> k in store.runs || Named(ds, k))
    && (forall k :: k in store.runs && k in t.runs ==> t.runs[k].localProject == store.runs[k].localProject)
    && (forall k :: k in t.runs && k !in store.runs ==> exists d :: d in ds && d.key == k && t.runs[k].localProject == d.localProject)
  }

  lemma SyncedProjects(t: Store, d: Document)
    ensures var u := Synced(t, d);
      && (forall k :: k in u.runs <==> k in t.runs || k == d.key)
      && (forall k :: k in t.runs ==> u.runs[k].localProject == t.runs[k].localProject)
      && (d.key !in t.runs ==> u.runs[d.key].localProject == d.localProject)
  {
  }

  lemma ProjectsPush(t: Store, store: Store, init: seq<Document>, last: Document)
    requires ProjectsExplained(t, store, init)
    ensures ProjectsExplained(Synced(t, last), store, init + [last])
  {
    NamedPush(init, last);
    SyncedProjects(t, last);
    var u := Synced(t, last);
    hide Synced, Named, Supplied;
    forall k | k in u.runs && k !in store.runs
      ensures exists d :: d in init + [last] && d.key == k && u.runs[k].localProject == d.localProject
    {
      if k in t.runs {
        var d :| d in init && d.key == k && t.runs[k].localProject == d.localProject;
        assert d in init + [last];
      } else {
        assert last in init + [last];
      }
    }
  }

  lemma {:induction false} SyncAllProjects(store: Store, ds: seq<Document>)
    ensures ProjectsExplained(SyncAll(store, ds), store, ds)
  {
    if ds != [] {
      SyncAllProjects(store, ds[..|ds| - 1]);
      hide ProjectsExplained, Synced;
      ProjectsPush(SyncAll(store, ds[..|ds| - 1]), store, ds[..|ds| - 1], ds[|ds| - 1]);
      assert ds[..|ds| - 1] + [ds[|ds| - 1]] == ds;
    }
  }

  lemma SameProjects(a: Store, b: Store, store: Store, p: seq<Document>, q: seq<Document>)
    requires ProjectsExplained(a, store, p) && ProjectsExplained(b, store, q)
    requires OneProjectEach(store, p) && forall d :: d in p <==> d in q
    ensures Projects(a) == Projects(b)
  {
    assert forall k :: Named(p, k) <==> Named(q, k);
    hide Named;
    assert a.runs.Keys == b.runs.Keys;
  }

  /** Exactly when the local projects named by the rows do not depend on the order of arrival. */
  lemma ProjectsForgetOrderWhen(store: Store, p: seq<Document>)
    ensures ProjectsForgetOrder(store, p) <==> OneProjectEach(store, p)
  {
    hide SyncAll;
    if OneProjectEach(store, p) {
      SyncAllProjects(store, p);
      forall q | multiset(q) == multiset(p) ensures Projects(SyncAll(store, q)) == Projects(SyncAll(store, p)) {
        SameMultisetSameMembers(p, q);
        SyncAllProjects(store, q);
        hide ProjectsExplained, Projects, OneProjectEach;
        SameProjects(SyncAll(store, p), SyncAll(store, q), store, p, q);
      }
    } else {
      var a, b :| a in p && b in p && a.key == b.key && a.key !in store.runs && a.localProject != b.localProject;
      var rest := BothOrders(p, a, b);
      FirstStays(store, a, [b] + rest);
      FirstStays(store, b, [a] + rest);
      assert Projects(SyncAll(store, [a] + ([b] + rest)))[a.key] != Projects(SyncAll(store, [b] + ([a] + rest)))[a.key];
    }
  }

  /** Contradicting documents exist, over cores and over search results alike. */
  lemma FirstWriterWins()
    ensures exists p: seq<Document> :: !DigestsForgetOrder(Store(map[], map[]), p) && |p| == 2 && p[0].core != p[1].core
    ensures exists p: seq<Document> :: !DigestsForgetOrder(Store(map[], map[]), p) && |p| == 2 && p[0].core == p[1].core
  {
    var a := Document(Key("p", "r"), "l", "core-a", "", Some(Search("x", "")), "", "u");
    var b, c := a.(core := "core-b"), a.(search := Some(Search("y", "")));
    assert "core-a"[5] != "core-b"[5] && "x"[0] != "y"[0];
    var p, q := [a, b], [a, c];
    DigestsForgetOrderWhen(Store(map[], map[]), p);
    DigestsForgetOrderWhen(Store(map[], map[]), q);
    assert a in p && b in p && !Compatible(a, b) && a in q && c in q && !Compatible(a, c);
    hide DigestsForgetOrder;
    assert p[0].core != p[1].core && q[0].core == q[1].core;
  }

  /** So do compatible documents of one new run from different local projects. */
  lemma FirstWriterNamesTheProject()
    ensures exists p: seq<Document> :: LiveCompatible(Store(map[], map[]), p) && !ProjectsForgetOrder(Store(map[], map[]), p)
  {
    var a := Document(Key("p", "r"), "one", "core", "", None, "", "u");
    var b := a.(localProject := "two");
    var p := [a, b];
    assert "one"[0] != "two"[0] && a in p && b in p;
    ProjectsForgetOrderWhen(Store(map[], map[]), p);
    hide ProjectsForgetOrder;
    assert LiveCompatible(Store(map[], map[]), p);
  }
}
