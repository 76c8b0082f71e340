/** The records of a graph slice: how two records of one id are merged, and the ordered maps that hold them. */
module GraphRecords {
  import opened Options

  // ----- weakest wins -----

  datatype Completeness = UnknownStatus | Partial | Complete | OtherStatus(text: string)

  datatype Freshness = Stale | UnknownFreshness | Unverifiable | Current | OtherFreshness(text: string)

  function CompletenessRank(c: Completeness): int {
    match c
    case UnknownStatus => 0
    case Partial => 1
    case Complete => 2
    case OtherStatus(_) => 1
  }

  function FreshnessRank(f: Freshness): int {
    match f
    case Stale => 0
    case UnknownFreshness => 1
    case Unverifiable => 1
    case Current => 2
    case OtherFreshness(_) => 1
  }

  function Weakest<T>(left: Option<T>, right: Option<T>, rank: T -> int): Option<T> {
    if left.None? then right
    else if right.None? then left
    else if rank(left.value) <= rank(right.value) then left
    else right
  }

  /** x claims no more than each of the two: where one is given, x is given and ranks no higher. */
  predicate NoStronger<T>(x: Option<T>, than: Option<T>, rank: T -> int) {
    than.Some? ==> x.Some? && rank(x.value) <= rank(than.value)
  }

  /** The weakest of two claims is one of them, and no stronger than either. */
  lemma WeakestIsNoStronger<T>(left: Option<T>, right: Option<T>, rank: T -> int)
    ensures NoStronger(Weakest(left, right, rank), left, rank) && NoStronger(Weakest(left, right, rank), right, rank)
    ensures Weakest(left, right, rank) == left || Weakest(left, right, rank) == right
  {
  }

  /** Of two freshness claims the second counts if it alone is stale, or if the first alone is current. */
  lemma WeakerFreshness(left: Freshness, right: Freshness)
    ensures Weakest(Some(left), Some(right), FreshnessRank) ==
            Some(if (right == Stale && left != Stale) || (left == Current && right != Current) then right else left)
  {
  }

  /** Of two completeness claims the second counts if it alone is unknown, or if the first alone is complete. */
  lemma WeakerCompleteness(left: Completeness, right: Completeness)
    ensures Weakest(Some(left), Some(right), CompletenessRank) ==
            Some(if (right == UnknownStatus && left != UnknownStatus) || (left == Complete && right != Complete) then right else left)
  {
  }

  /** The claims that are made at all. */
  function Made<T(==)>(claims: seq<Option<T>>): set<T> {
    if claims == [] then {}
    else Made(claims[..|claims| - 1]) + match claims[|claims| - 1] { case None => {} case Some(c) => {c} }
  }

  /** One claim for many: the bottom one if any of them is that, the top one if all that are made are. */
  predicate SumsUp<T(==)>(claim: Option<T>, claims: seq<Option<T>>, bottom: T, top: T) {
    && (claim == Some(bottom) <==> bottom in Made(claims))
    && (claim == Some(top) <==> Made(claims) == {top})
    && (claim == None <==> Made(claims) == {})
  }

  lemma MadeMore<T>(claims: seq<Option<T>>, next: Option<T>)
    ensures Made(claims + [next]) == if next.Some? then Made(claims) + {next.value} else Made(claims)
  {
    assert (claims + [next])[..|claims|] == claims;
  }

  lemma OneMoreFreshness(claim: Option<Freshness>, claims: seq<Option<Freshness>>, next: Option<Freshness>)
    requires SumsUp(claim, claims, Stale, Current)
    ensures SumsUp(Weakest(claim, next, FreshnessRank), claims + [next], Stale, Current)
  {
    hide Made;
    MadeMore(claims, next);
    if claim.Some? && next.Some? {
      WeakerFreshness(claim.value, next.value);
      TopOfMore(Made(claims), next.value, Current);
    }
  }

  lemma OneMoreCompleteness(claim: Option<Completeness>, claims: seq<Option<Completeness>>, next: Option<Completeness>)
    requires SumsUp(claim, claims, UnknownStatus, Complete)
    ensures SumsUp(Weakest(claim, next, CompletenessRank), claims + [next], UnknownStatus, Complete)
  {
    hide Made;
    MadeMore(claims, next);
    if claim.Some? && next.Some? {
      WeakerCompleteness(claim.value, next.value);
      TopOfMore(Made(claims), next.value, Complete);
    }
  }

  lemma TopOfMore<T>(made: set<T>, next: T, top: T)
    requires made != {}
    ensures made + {next} == {top} <==> made == {top} && next == top
  {
    if made + {next} == {top} {
      var m :| m in made;
      assert m in made + {next} && next in made + {next};
      assert made <= {top};
    }
  }

  lemma OneFreshness(claim: Option<Freshness>)
    ensures SumsUp(claim, [claim], Stale, Current)
  {
    MadeMore([], claim);
    assert [] + [claim] == [claim];
  }

  lemma OneCompleteness(claim: Option<Completeness>)
    ensures SumsUp(claim, [claim], UnknownStatus, Complete)
  {
    MadeMore([], claim);
    assert [] + [claim] == [claim];
  }

  // ----- records -----

  /** A boolean field that may be missing. */
  type Flag = Option<bool>

  predicate Raised(f: Flag) {
    f == Some(true)
  }

  datatype Status = Status(completeness: Option<Completeness>, freshness: Option<Freshness>,
                           truncated: Flag, paginationTruncated: Flag, evidenceTruncated: Flag)

  datatype Evidence = Evidence(truncated: Flag, sitesTruncated: Flag)

  /** A node or an edge; a node has no ends and no sites. */
  datatype Element = Element(id: string, source: string, target: string, sites: Option<seq<string>>,
                             status: Option<Status>, evidence: Option<Evidence>)
  {
    function Sites(): seq<string> {
      if sites.Some? then sites.value else []
    }

    predicate Truncated() {
      status.Some? && Raised(status.value.truncated)
    }

    predicate EvidenceTruncated() {
      (status.Some? && Raised(status.value.evidenceTruncated)) || (evidence.Some? && Raised(evidence.value.sitesTruncated))
    }
  }

  function MergeFlag(left: Flag, right: Flag): Flag {
    if left.None? && right.None? then None else Some(Raised(left) || Raised(right))
  }

  function MergeStatus(left: Option<Status>, right: Option<Status>): Status {
    var none := Status(None, None, None, None, None);
    var l := if left.Some? then left.value else none;
    var r := if right.Some? then right.value else none;
    Status(Weakest(l.completeness, r.completeness, CompletenessRank), Weakest(l.freshness, r.freshness, FreshnessRank),
           MergeFlag(l.truncated, r.truncated), MergeFlag(l.paginationTruncated, r.paginationTruncated),
           MergeFlag(l.evidenceTruncated, r.evidenceTruncated))
  }

  function MergeEvidence(left: Option<Evidence>, right: Option<Evidence>): Evidence {
    var l := if left.Some? then left.value else Evidence(None, None);
    var r := if right.Some? then right.value else Evidence(None, None);
    Evidence(MergeFlag(l.truncated, r.truncated), MergeFlag(l.sitesTruncated, r.sitesTruncated))
  }

  /** The first occurrence of each site. */
  function Deduplicated(sites: seq<string>): (r: seq<string>)
    ensures forall s :: s in r <==> s in sites
    ensures |r| <= |sites|
  {
    if sites == [] then []
    else
      var front, last := Deduplicated(sites[..|sites| - 1]), sites[|sites| - 1];
      assert sites == sites[..|sites| - 1] + [last];
      if last in front then front else front + [last]
  }

  predicate NoRepeats(sites: seq<string>) {
    forall i, j :: 0 <= i < j < |sites| ==> sites[i] != sites[j]
  }

  /** Each site once, and what stands first stays first. */
  lemma {:induction false} DeduplicatedOnce(a: seq<string>, b: seq<string>)
    ensures NoRepeats(Deduplicated(a + b)) && Deduplicated(a) <= Deduplicated(a + b)
    ensures NoRepeats(a) ==> Deduplicated(a) == a
    decreases |a| + |b|
  {
    hide NoRepeats;
    if b != [] {
      assert (a + b)[..|a + b| - 1] == a + b[..|b| - 1];
      DeduplicatedOnce(a, b[..|b| - 1]);
      OneMoreSite(Deduplicated(a + b[..|b| - 1]), b[|b| - 1]);
    } else if a != [] {
      assert a + b == a && a[..|a| - 1] + [] == a[..|a| - 1];
      DeduplicatedOnce(a[..|a| - 1], []);
      assert a == a[..|a| - 1] + [a[|a| - 1]];
      OneMoreSite(Deduplicated(a[..|a| - 1]), a[|a| - 1]);
      OneMoreSite(a[..|a| - 1], a[|a| - 1]);
    } else {
      NothingRepeats();
    }
  }

  lemma NothingRepeats()
    ensures NoRepeats([])
  {
  }

  lemma OneMoreSite(sites: seq<string>, site: string)
    ensures NoRepeats(sites + [site]) <==> NoRepeats(sites) && site !in sites
  {
    var more := sites + [site];
    if NoRepeats(more) {
      forall i, j | 0 <= i < j < |sites| ensures sites[i] != sites[j] {
        assert more[i] != more[j];
      }
      forall i | 0 <= i < |sites| ensures sites[i] != site {
        assert more[i] != more[|sites|];
      }
    }
  }

  function MergeSites(left: Element, right: Element): Option<seq<string>> {
    if left.sites.None? && right.sites.None? then None else Some(Deduplicated(left.Sites() + right.Sites()))
  }

  function MergeRecord(left: Element, right: Element): Element {
    Element(right.id, right.source, right.target, MergeSites(left, right),
            if left.status.Some? || right.status.Some? then Some(MergeStatus(left.status, right.status)) else None,
            if left.evidence.Some? || right.evidence.Some? then Some(MergeEvidence(left.evidence, right.evidence)) else None)
  }

  /** An element whose rest, or whose evidence, was cut off. */
  function MarkTruncated(e: Element, evidence: bool): Element {
    var mark := Status(None, None, Some(true), None, if evidence then Some(true) else None);
    e.(status := Some(MergeStatus(e.status, Some(mark))),
       evidence := if evidence then Some(MergeEvidence(e.evidence, Some(Evidence(Some(true), Some(true))))) else e.evidence)
  }

  /** A truncation that only says that there is another page does not belong to the record. */
  function PageLocal(e: Element): Element {
    if e.status.Some? && Raised(e.status.value.paginationTruncated)
    then e.(status := Some(e.status.value.(truncated := None, paginationTruncated := None)))
    else e
  }

  /** Merging keeps every site, every flag that is up, and the weaker of the two claims. */
  lemma MergeRecordKeeps(left: Element, right: Element)
    ensures var m := MergeRecord(left, right);
            && (forall s :: s in m.Sites() <==> s in left.Sites() || s in right.Sites())
            && |m.Sites()| <= |left.Sites()| + |right.Sites()|
            && (m.Truncated() <==> left.Truncated() || right.Truncated())
            && (m.EvidenceTruncated() <==> left.EvidenceTruncated() || right.EvidenceTruncated())
  {
  }

  /** A merged record claims no more than either of its parts. */
  lemma MergeRecordIsNoStronger(left: Element, right: Element)
    ensures left.status.Some? || right.status.Some? ==> MergeRecord(left, right).status.Some?
    ensures left.status.Some? ==>
      && NoStronger(MergeRecord(left, right).status.value.completeness, left.status.value.completeness, CompletenessRank)
      && NoStronger(MergeRecord(left, right).status.value.freshness, left.status.value.freshness, FreshnessRank)
    ensures right.status.Some? ==>
      && NoStronger(MergeRecord(left, right).status.value.completeness, right.status.value.completeness, CompletenessRank)
      && NoStronger(MergeRecord(left, right).status.value.freshness, right.status.value.freshness, FreshnessRank)
  {
  }

  function PaginationFlag(e: Element): Flag {
    if e.status.Some? then e.status.value.paginationTruncated else None
  }

  function EvidenceFlag(e: Element): Flag {
    if e.evidence.Some? then e.evidence.value.truncated else None
  }

  /**
   A merged record has the later record's identity and ends, the first record's sites followed by the new ones, and a flag
   wherever one of them has it.
  */
  lemma MergeRecordFields(left: Element, right: Element)
    ensures var m := MergeRecord(left, right);
            && m.id == right.id && m.source == right.source && m.target == right.target
            && (m.sites.None? <==> left.sites.None? && right.sites.None?)
            && NoRepeats(m.Sites()) && (NoRepeats(left.Sites()) ==> left.Sites() <= m.Sites())
            && (PaginationFlag(m).None? <==> PaginationFlag(left).None? && PaginationFlag(right).None?)
            && (Raised(PaginationFlag(m)) <==> Raised(PaginationFlag(left)) || Raised(PaginationFlag(right)))
            && (EvidenceFlag(m).None? <==> EvidenceFlag(left).None? && EvidenceFlag(right).None?)
            && (Raised(EvidenceFlag(m)) <==> Raised(EvidenceFlag(left)) || Raised(EvidenceFlag(right)))
  {
    hide Weakest, FreshnessRank, CompletenessRank;
    DeduplicatedOnce(left.Sites(), right.Sites());
  }

  /** A mark adds that the record is truncated, and on request that its evidence is; everything else stays. */
  lemma MarkAddsOnly(e: Element, evidence: bool)
    ensures var m := MarkTruncated(e, evidence);
            && m.Truncated() && m.id == e.id && m.source == e.source && m.target == e.target && m.sites == e.sites
            && FreshnessOf(m) == FreshnessOf(e) && CompletenessOf(m) == CompletenessOf(e) && PaginationFlag(m) == PaginationFlag(e)
            && (if evidence then
                  && m.status.value.evidenceTruncated == Some(true)
                  && m.evidence == Some(Evidence(Some(true), Some(true)))
                else m.EvidenceTruncated() == e.EvidenceTruncated() && m.evidence == e.evidence)
  {
    hide FreshnessRank, CompletenessRank;
    MarkedFlag(PaginationFlag(e));
    var m := MarkTruncated(e, evidence);
    assert PaginationFlag(m) == MergeFlag(PaginationFlag(e), None);
    assert evidence ==> m.evidence.value.truncated == Some(true) && m.evidence.value.sitesTruncated == Some(true);
  }

  lemma MarkedFlag(f: Flag)
    ensures MergeFlag(f, None) == f
  {
    if f.Some? {
      assert f.value == true || f.value == false;
    }
  }

  /** A record that is marked for paging loses that mark and the truncation with it; any other stays as it is. */
  lemma PageLocalClears(e: Element)
    ensures var p := PageLocal(e);
            if !Raised(PaginationFlag(e)) then p == e
            else
              && !p.Truncated() && PaginationFlag(p) == None && p.EvidenceTruncated() == e.EvidenceTruncated()
              && FreshnessOf(p) == FreshnessOf(e) && CompletenessOf(p) == CompletenessOf(e)
              && p.id == e.id && p.source == e.source && p.target == e.target && p.sites == e.sites && p.evidence == e.evidence
  {
  }

  function FreshnessOf(e: Element): Option<Freshness> {
    if e.status.Some? then e.status.value.freshness else None
  }

  function CompletenessOf(e: Element): Option<Completeness> {
    if e.status.Some? then e.status.value.completeness else None
  }

  /** A merged record sums up the claims of both: stale if one is, current if both that say so are; and so for completeness. */
  lemma MergeRecordSumsUp(left: Element, right: Element)
    ensures SumsUp(FreshnessOf(MergeRecord(left, right)), [FreshnessOf(left), FreshnessOf(right)], Stale, Current)
    ensures SumsUp(CompletenessOf(MergeRecord(left, right)), [CompletenessOf(left), CompletenessOf(right)], UnknownStatus, Complete)
  {
    hide SumsUp, Weakest, FreshnessRank, CompletenessRank;
    OneFreshness(FreshnessOf(left));
    OneMoreFreshness(FreshnessOf(left), [FreshnessOf(left)], FreshnessOf(right));
    OneCompleteness(CompletenessOf(left));
    OneMoreCompleteness(CompletenessOf(left), [CompletenessOf(left)], CompletenessOf(right));
    assert [FreshnessOf(left)] + [FreshnessOf(right)] == [FreshnessOf(left), FreshnessOf(right)];
    assert [CompletenessOf(left)] + [CompletenessOf(right)] == [CompletenessOf(left), CompletenessOf(right)];
    MergedClaims(left, right);
  }

  lemma MergedClaims(left: Element, right: Element)
    ensures FreshnessOf(MergeRecord(left, right)) == Weakest(FreshnessOf(left), FreshnessOf(right), FreshnessRank)
    ensures CompletenessOf(MergeRecord(left, right)) == Weakest(CompletenessOf(left), CompletenessOf(right), CompletenessRank)
  {
    hide FreshnessRank, CompletenessRank;
  }

  // ----- ordered maps from id to record -----

  predicate Has(records: seq<Element>, id: string) {
    exists i :: 0 <= i < |records| && records[i].id == id
  }

  predicate Distinct(records: seq<Element>) {
    forall i, j :: 0 <= i < j < |records| ==> records[i].id != records[j].id
  }

  /** The place of an id, or |records|. */
  function IndexOf(records: seq<Element>, id: string): (r: nat)
    ensures r <= |records|
    ensures r < |records| ==> records[r].id == id
    ensures forall i :: 0 <= i < r ==> records[i].id != id
  {
    if records == [] then 0
    else
      var front := records[..|records| - 1];
      var i := IndexOf(front, id);
      assert forall j :: 0 <= j < |front| ==> records[j] == front[j];
      if i < |front| || records[i].id == id then i else |records|
  }

  function Get(records: seq<Element>, id: string): (r: Option<Element>)
    ensures r.Some? <==> Has(records, id)
    ensures r.Some? ==> r.value in records && r.value.id == id
  {
    var i := IndexOf(records, id);
    if i < |records| then Some(records[i]) else None
  }

  /** Setting a key keeps its place; a new key goes to the end. */
  function Set(records: seq<Element>, e: Element): (r: seq<Element>)
    ensures |records| <= |r| <= |records| + 1
  {
    var i := IndexOf(records, e.id);
    if i < |records| then records[i := e] else records + [e]
  }

  /** `new Map(records)`: the last record of an id wins. */
  function MapOf(records: seq<Element>): (r: seq<Element>)
    ensures |r| <= |records|
  {
    if records == [] then [] else Set(MapOf(records[..|records| - 1]), records[|records| - 1])
  }

  /** The record that a map holds once e has been merged into it. */
  function Joined(records: seq<Element>, e: Element): (r: Element)
    ensures r.id == e.id
  {
    if Has(records, e.id) then MergeRecord(Get(records, e.id).value, e) else e
  }

  function AbsorbAll(records: seq<Element>, more: seq<Element>): (r: seq<Element>)
    ensures |r| <= |records| + |more|
  {
    if more == [] then records
    else
      var front := AbsorbAll(records, more[..|more| - 1]);
      Set(front, Joined(front, more[|more| - 1]))
  }

  lemma SetShape(records: seq<Element>, e: Element)
    ensures var i, r := IndexOf(records, e.id), Set(records, e);
            && i < |r| && r[i] == e && |r| == (if i < |records| then |records| else |records| + 1)
            && forall j :: 0 <= j < |records| && j != i ==> r[j] == records[j]
  {
    hide IndexOf;
  }

  lemma SetGet(records: seq<Element>, e: Element, id: string)
    requires Distinct(records)
    ensures Get(Set(records, e), id) == if id == e.id then Some(e) else Get(records, id)
  {
    hide IndexOf, Set;
    SetShape(records, e);
    var r := Set(records, e);
    var i, j, k := IndexOf(records, e.id), IndexOf(r, id), IndexOf(records, id);
    if id == e.id {
      assert r[i].id == id;
      assert j == i;
    } else if k < |records| {
      assert r[k].id == id;
      assert j == k;
    } else {
      assert j == |r|;
    }
  }

  lemma SetKeys(records: seq<Element>, e: Element)
    requires Distinct(records)
    ensures Distinct(Set(records, e))
    ensures forall id :: Has(Set(records, e), id) <==> Has(records, id) || id == e.id
    ensures forall id :: Get(Set(records, e), id) == if id == e.id then Some(e) else Get(records, id)
  {
    hide IndexOf, Set;
    SetShape(records, e);
    forall id ensures Get(Set(records, e), id) == if id == e.id then Some(e) else Get(records, id) {
      SetGet(records, e, id);
    }
    forall id ensures Has(Set(records, e), id) <==> Has(records, id) || id == e.id {
      assert Get(Set(records, e), id).Some? <==> Get(records, id).Some? || id == e.id;
    }
  }

  lemma {:induction false} MapOfKeys(records: seq<Element>)
    ensures Distinct(MapOf(records))
    ensures forall id :: Has(MapOf(records), id) <==> Has(records, id)
  {
    if records != [] {
      var front, last := records[..|records| - 1], records[|records| - 1];
      MapOfKeys(front);
      SetKeys(MapOf(front), last);
      HasOfSum(front, last);
      assert records == front + [last];
    }
  }

  lemma HasOfSum(records: seq<Element>, e: Element)
    ensures forall id :: Has(records + [e], id) <==> Has(records, id) || id == e.id
  {
    var longer := records + [e];
    forall id ensures Has(longer, id) <==> Has(records, id) || id == e.id {
      assert longer[|records|] == e;
      if Has(records, id) {
        var i :| 0 <= i < |records| && records[i].id == id;
        assert longer[i].id == id;
      }
    }
  }

  lemma {:induction false} AbsorbAllKeys(records: seq<Element>, more: seq<Element>)
    requires Distinct(records)
    ensures Distinct(AbsorbAll(records, more))
    ensures forall id :: Has(AbsorbAll(records, more), id) <==> Has(records, id) || Has(more, id)
  {
    if more != [] {
      var front, last := more[..|more| - 1], more[|more| - 1];
      AbsorbAllKeys(records, front);
      var before := AbsorbAll(records, front);
      SetKeys(before, Joined(before, last));
      HasOfSum(front, last);
      assert more == front + [last];
    }
  }

  /** The last record of an id. */
  function LastOf(records: seq<Element>, id: string): (r: Option<Element>)
    ensures r.Some? <==> Has(records, id)
    ensures r.Some? ==> r.value in records && r.value.id == id
  {
    if records == [] then None
    else
      var front := records[..|records| - 1];
      assert forall j :: 0 <= j < |front| ==> records[j] == front[j];
      if records[|records| - 1].id == id then Some(records[|records| - 1]) else LastOf(front, id)
  }

  /** A map built from a list holds the last record of each id. */
  lemma {:induction false} MapOfHoldsLast(records: seq<Element>, id: string)
    ensures Get(MapOf(records), id) == LastOf(records, id)
  {
    hide Set, IndexOf;
    if records != [] {
      var front, last := records[..|records| - 1], records[|records| - 1];
      MapOfHoldsLast(front, id);
      MapOfKeys(front);
      SetKeys(MapOf(front), last);
    }
  }

  /** A list without repetitions is its front with the last record set. */
  lemma DistinctSplit(records: seq<Element>, front: seq<Element>, last: Element)
    requires records == front + [last] && Distinct(records)
    ensures Distinct(front) && !Has(front, last.id)
    ensures forall id :: Get(records, id) == if id == last.id then Some(last) else Get(front, id)
  {
    hide IndexOf, Get, Has;
    NotBefore(front, last);
    assert forall i :: 0 <= i < |front| ==> records[i] == front[i];
    assert Set(front, last) == records;
    SetKeys(front, last);
  }

  lemma NotBefore(front: seq<Element>, last: Element)
    requires Distinct(front + [last])
    ensures !Has(front, last.id) && IndexOf(front, last.id) == |front|
  {
    var records := front + [last];
    forall i | 0 <= i < |front| ensures front[i].id != last.id {
      assert records[i] == front[i] && records[|front|] == last;
    }
  }

  /** What each id ends up with: a new record as it is, an old one untouched, a shared one merged. */
  lemma {:induction false} AbsorbAllRecords(records: seq<Element>, more: seq<Element>, id: string)
    requires Distinct(records) && Distinct(more)
    ensures Get(AbsorbAll(records, more), id) ==
            if Has(more, id) then Some(Joined(records, Get(more, id).value)) else Get(records, id)
  {
    hide MergeRecord, Set, IndexOf, Distinct, Has, Get;
    if more != [] {
      var front, last := more[..|more| - 1], more[|more| - 1];
      assert more == front + [last];
      DistinctSplit(more, front, last);
      var before := AbsorbAll(records, front);
      AbsorbAllKeys(records, front);
      AbsorbAllRecords(records, front, id);
      AbsorbAllRecords(records, front, last.id);
      SetKeys(before, Joined(before, last));
      assert Has(more, id) <==> Get(more, id).Some?;
    } else {
      HasNothing(id);
    }
  }

  lemma HasNothing(id: string)
    ensures !Has([], id)
  {
  }

  lemma {:induction false} MapOfDistinct(records: seq<Element>)
    requires Distinct(records)
    ensures MapOf(records) == records
  {
    if records != [] {
      var front, last := records[..|records| - 1], records[|records| - 1];
      MapOfDistinct(front);
      assert !Has(front, last.id);
      assert records == front + [last];
    }
  }

  // ----- what holds of every record -----

  ghost predicate Each(records: seq<Element>, P: Element -> bool) {
    forall i :: 0 <= i < |records| ==> P(records[i])
  }

  lemma EachSet(records: seq<Element>, e: Element, P: Element -> bool)
    requires Each(records, P) && P(e)
    ensures Each(Set(records, e), P)
  {
  }

  lemma {:induction false} EachMapOf(records: seq<Element>, P: Element -> bool)
    requires Each(records, P)
    ensures Each(MapOf(records), P)
  {
    if records != [] {
      EachMapOf(records[..|records| - 1], P);
      EachSet(MapOf(records[..|records| - 1]), records[|records| - 1], P);
    }
  }

  lemma {:induction false} EachAbsorbAll(records: seq<Element>, more: seq<Element>, P: Element -> bool)
    requires Each(records, P) && Each(more, P)
    requires forall l, r :: P(l) && P(r) ==> P(MergeRecord(l, r))
    ensures Each(AbsorbAll(records, more), P)
  {
    if more != [] {
      var front := more[..|more| - 1];
      EachAbsorbAll(records, front, P);
      EachSet(AbsorbAll(records, front), Joined(AbsorbAll(records, front), more[|more| - 1]), P);
    }
  }

  // ----- sites -----

  predicate SiteAt(records: seq<Element>, id: string, site: string) {
    Has(records, id) && site in Get(records, id).value.Sites()
  }

  predicate SiteIn(records: seq<Element>, id: string, site: string) {
    exists i :: 0 <= i < |records| && records[i].id == id && site in records[i].Sites()
  }

  lemma SiteInSum(records: seq<Element>, e: Element, id: string, site: string)
    ensures SiteIn(records + [e], id, site) <==> SiteIn(records, id, site) || (e.id == id && site in e.Sites())
  {
    var longer := records + [e];
    assert longer[|records|] == e;
    if SiteIn(records, id, site) {
      var i :| 0 <= i < |records| && records[i].id == id && site in records[i].Sites();
      assert longer[i] == records[i];
    }
  }

  lemma SiteAtSet(records: seq<Element>, e: Element, id: string, site: string)
    requires Distinct(records)
    ensures SiteAt(Set(records, Joined(records, e)), id, site) <==> SiteAt(records, id, site) || (e.id == id && site in e.Sites())
  {
    hide MergeRecord, IndexOf, Set;
    SetKeys(records, Joined(records, e));
    if Has(records, e.id) {
      MergeRecordKeeps(Get(records, e.id).value, e);
    }
  }

  /** A merged record has exactly the sites of all the records of its id. */
  lemma {:induction false} AbsorbAllSites(records: seq<Element>, more: seq<Element>, id: string, site: string)
    requires Distinct(records)
    ensures SiteAt(AbsorbAll(records, more), id, site) <==> SiteAt(records, id, site) || SiteIn(more, id, site)
  {
    hide SiteAt, Joined, Set;
    if more != [] {
      var front, last := more[..|more| - 1], more[|more| - 1];
      AbsorbAllSites(records, front, id, site);
      AbsorbAllKeys(records, front);
      SiteAtSet(AbsorbAll(records, front), last, id, site);
      SiteInSum(front, last, id, site);
      assert more == front + [last];
    }
  }

  function TotalSites(records: seq<Element>): nat {
    if records == [] then 0 else TotalSites(records[..|records| - 1]) + |records[|records| - 1].Sites()|
  }

  lemma {:induction false} TotalSitesOfUpdate(records: seq<Element>, i: nat, e: Element)
    requires i < |records|
    ensures TotalSites(records[i := e]) == TotalSites(records) - |records[i].Sites()| + |e.Sites()|
  {
    var front := records[..|records| - 1];
    if i < |front| {
      TotalSitesOfUpdate(front, i, e);
      assert records[i := e][..|front|] == front[i := e];
    } else {
      assert records[i := e][..|front|] == front;
    }
  }

  lemma TotalSitesOfSet(records: seq<Element>, e: Element)
    ensures TotalSites(Set(records, e)) ==
            TotalSites(records) + |e.Sites()| - if Has(records, e.id) then |Get(records, e.id).value.Sites()| else 0
  {
    var i := IndexOf(records, e.id);
    if i < |records| {
      TotalSitesOfUpdate(records, i, e);
    } else {
      assert (records + [e])[..|records|] == records;
    }
  }

  lemma {:induction false} TotalSitesOfMap(records: seq<Element>)
    ensures TotalSites(MapOf(records)) <= TotalSites(records)
  {
    if records != [] {
      TotalSitesOfMap(records[..|records| - 1]);
      TotalSitesOfSet(MapOf(records[..|records| - 1]), records[|records| - 1]);
    }
  }

  lemma {:induction false} TotalSitesOfAbsorb(records: seq<Element>, more: seq<Element>)
    ensures TotalSites(AbsorbAll(records, more)) <= TotalSites(records) + TotalSites(more)
  {
    if more != [] {
      var front, last := more[..|more| - 1], more[|more| - 1];
      TotalSitesOfAbsorb(records, front);
      var before := AbsorbAll(records, front);
      TotalSitesOfSet(before, Joined(before, last));
      if Has(before, last.id) {
        MergeRecordKeeps(Get(before, last.id).value, last);
      }
    }
  }
}
