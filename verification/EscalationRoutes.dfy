/**
 Escalation routes cite a source version too, but only writing a route checks it. Taking an approved version
 back into review asks about facts and updates and about nothing else.
 */
module EscalationRoutes {
  import opened Wrappers
  import E = Evidence
  import Laws = EvidenceLaws

  datatype Route = Route(version: E.Id, active: bool)

  /** What is checked when a route is written: an active one cites a citable version. */
  predicate Backed(t: E.Tables, r: Route) {
    r.active ==> r.version in t.versions && Laws.Carries(t.versions[r.version].state)
  }

  /** Taking an approved version back into review succeeds exactly when no public fact or update needs it. */
  lemma RetiringAsksOnlyAboutClaims(t: E.Tables, v: E.Id)
    requires E.Good(t) && v in t.versions && t.versions[v].state == E.Approved
    ensures E.Transact(t, [E.UpdateVersion(v, t.versions[v].(state := E.InReview), true)])
            == if Laws.BackedWithout(t, v) then Laws.Moved(t, v, E.InReview) else t
  {
    Laws.MoveCommitsIff(t, v, E.InReview);
  }

  /** So a route may stay active although its source is no longer approved, whenever no claim needs that source. */
  lemma RoutesOutliveTheirSource(t: E.Tables, v: E.Id, r: Route)
    requires E.Good(t) && v in t.versions && t.versions[v].state == E.Approved && r == Route(v, true)
    ensures var t' := E.Transact(t, [E.UpdateVersion(v, t.versions[v].(state := E.InReview), true)]);
            Backed(t, r) && (Backed(t', r) <==> !Laws.BackedWithout(t, v))
  {
    RetiringAsksOnlyAboutClaims(t, v);
  }

  /** Such a state: one approved version that only the route cites. */
  lemma UncitedSourceIsEnough() returns (t: E.Tables, r: Route)
    ensures E.Good(t) && r.active && Backed(t, r) && r.version in t.versions
    ensures !Backed(E.Transact(t, [E.UpdateVersion(r.version, t.versions[r.version].(state := E.InReview), true)]), r)
  {
    var version := E.Version(0, E.Digest("x"), "x", "text/plain", 0, 0, "en", E.Approved, Some(0));
    t := E.Tables(
      map[], map[0 := E.Source("https://a", "t", "a", "civic_research", "independent_source", true)], map[0 := version],
      map[], map[], map[]);
    r := Route(0, true);
    assert Laws.BackedWithout(t, 0);
    RoutesOutliveTheirSource(t, 0, r);
  }
}
