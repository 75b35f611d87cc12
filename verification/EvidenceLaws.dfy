/**
 What transactions on the evidence tables come to, said in terms of the tables alone: which states carry a
 public claim, which review moves commit, and which rows go in and come out.
 */
module EvidenceLaws {
  import opened Wrappers
  import opened Evidence

  const EMPTY := Tables(map[], map[], map[], map[], map[], map[])

  /** A citation of the claim, to a version that is approved or superseded. */
  predicate Backs(t: Tables, key: Row, row: Row) {
    && key in t.cites && key.table == row.table && t.cites[key].parent == row.id
    && t.cites[key].version in t.versions
    && (t.versions[t.cites[key].version].state == Approved || t.versions[t.cites[key].version].state == Superseded)
  }

  predicate Backed(t: Tables, row: Row) {
    exists key :: key in t.cites && Backs(t, key, row)
  }

  ghost predicate AllBacked(t: Tables) {
    forall row :: row in t.claims && t.claims[row].public ==> Backed(t, row)
  }

  lemma BackedIsSupport(t: Tables, row: Row)
    ensures Backed(t, row) <==> HasSupport(t, row)
    ensures forall key :: Backs(t, key, row) <==> Supports(t, key, row)
  {
    assert forall key :: Backs(t, key, row) <==> Supports(t, key, row);
  }

  lemma AllBackedIsSupported(t: Tables)
    ensures AllBacked(t) <==> Supported(t)
  {
    forall row ensures Backed(t, row) <==> HasSupport(t, row) {
      BackedIsSupport(t, row);
    }
  }

  // ---- Whole transactions and runs ----

  /** A transaction of statements that do not raise commits if and only if it leaves every public claim backed. */
  lemma CommitsIffAllBacked(t: Tables, statements: seq<Statement>)
    requires Good(t)
    ensures Transact(t, statements)
            == match ExecAll(Txn(t, {}), statements)
               case None => t
               case Some(x) => if AllBacked(x.t) then x.t else t
  {
    if ExecAll(Txn(t, {}), statements).Some? {
      CommitIffSupported(t, statements);
      AllBackedIsSupported(ExecAll(Txn(t, {}), statements).value.t);
    }
  }

  /**
   In every state of every run from the empty tables, each public claim is cited from an approved or superseded
   version.
   */
  lemma EveryPublicClaimIsBacked(transactions: seq<seq<Statement>>, row: Row)
    requires row in Serial(EMPTY, transactions).claims && Serial(EMPTY, transactions).claims[row].public
    ensures Backed(Serial(EMPTY, transactions), row)
  {
    EveryStateIsGood(EMPTY, transactions);
    AllBackedIsSupported(Serial(EMPTY, transactions));
  }

  lemma ReachedIsGood(transactions: seq<seq<Statement>>)
    ensures Good(Serial(EMPTY, transactions))
  {
    EveryStateIsGood(EMPTY, transactions);
  }

  // ---- Review moves ----

  predicate IsMove(was: ReviewState, next: ReviewState) {
    (was, next) in {
      (Pending, InReview), (InReview, Approved), (InReview, Rejected), (Approved, InReview), (Approved, Superseded),
      (Rejected, InReview), (Superseded, InReview)}
  }

  function Moved(t: Tables, v: Id, state: ReviewState): Tables
    requires v in t.versions
  {
    t.(versions := t.versions[v := t.versions[v].(state := state)])
  }

  /** Every public claim has a backing citation to another version. */
  ghost predicate BackedWithout(t: Tables, v: Id) {
    forall row :: row in t.claims && t.claims[row].public ==>
                    exists key :: key in t.cites && Backs(t, key, row) && t.cites[key].version != v
  }

  predicate Carries(state: ReviewState) {
    state == Approved || state == Superseded
  }

  lemma MovedBacking(t: Tables, v: Id, state: ReviewState, key: Row, row: Row)
    requires v in t.versions
    ensures Backs(t, key, row) && t.cites[key].version != v ==> Backs(Moved(t, v, state), key, row)
    ensures Backs(t, key, row) && Carries(state) ==> Backs(Moved(t, v, state), key, row)
    ensures Backs(Moved(t, v, state), key, row) && !Carries(state) ==> Backs(t, key, row) && t.cites[key].version != v
  {
  }

  lemma MovedAllBacked(t: Tables, v: Id, state: ReviewState)
    requires v in t.versions && AllBacked(t)
    ensures AllBacked(Moved(t, v, state)) <==> Carries(state) || BackedWithout(t, v)
  {
    var t' := Moved(t, v, state);
    forall key, row
      ensures Backs(t, key, row) && t.cites[key].version != v ==> Backs(t', key, row)
      ensures Backs(t, key, row) && Carries(state) ==> Backs(t', key, row)
      ensures Backs(t', key, row) && !Carries(state) ==> Backs(t, key, row) && t.cites[key].version != v
    {
      MovedBacking(t, v, state, key, row);
    }
    if Carries(state) || BackedWithout(t, v) {
      forall row | row in t'.claims && t'.claims[row].public ensures Backed(t', row) {
        assert Backed(t, row);
      }
    }
    if AllBacked(t') && !Carries(state) {
      forall row | row in t.claims && t.claims[row].public
        ensures exists key :: key in t.cites && Backs(t, key, row) && t.cites[key].version != v
      {
        assert row in t'.claims && Backed(t', row);
        var key :| key in t'.cites && Backs(t', key, row);
      }
    }
  }

  /**
   A review move on its own commits if and only if it is one of the seven, a decision carries its date, and
   either the new state carries claims too or no public claim needs the version.
   */
  lemma MoveCommitsIff(t: Tables, v: Id, state: ReviewState)
    requires Good(t) && v in t.versions && state != t.versions[v].state
    ensures Transact(t, [UpdateVersion(v, t.versions[v].(state := state), true)])
            == if && IsMove(t.versions[v].state, state)
                  && (state == Pending || state == InReview || t.versions[v].reviewedAt.Some?)
                  && (state == Approved || state == Superseded || BackedWithout(t, v))
               then Moved(t, v, state) else t
  {
    var s := UpdateVersion(v, t.versions[v].(state := state), true);
    OneStatement(Txn(t, {}), s);
    CommitsIffAllBacked(t, [s]);
    AllBackedIsSupported(t);
    MovedAllBacked(t, v, state);
    assert VersionChecks(t.versions[v]);
  }

  /**
   Superseding an approved version always commits, changes that state only, and every public claim stays shown
   with a citation.
   */
  lemma SupersedingKeepsEverythingPublic(t: Tables, v: Id)
    requires Good(t) && v in t.versions && t.versions[v].state == Approved
    ensures var t' := Transact(t, [UpdateVersion(v, t.versions[v].(state := Superseded), true)]);
            && t' == t.(versions := t.versions[v := t.versions[v].(state := Superseded)])
            && forall row :: PublicClaim(t, row) ==>
                 PublicClaim(t', row) && exists key :: key in t'.cites && PublicCitation(t', key, row)
  {
    assert VersionChecks(t.versions[v]);
    MoveCommitsIff(t, v, Superseded);
    var t' := Moved(t, v, Superseded);
    var s := UpdateVersion(v, t.versions[v].(state := Superseded), true);
    assert Serial(t, [[s]]) == t' by {
      assert [[s]][1..] == [];
      assert Serial(t', []) == t';
    }
    forall row | PublicClaim(t, row)
      ensures PublicClaim(t', row) && exists key :: key in t'.cites && PublicCitation(t', key, row)
    {
      PublicClaimsAreCited(t, [[s]], row);
    }
  }

  // ---- Rows that go in and come out ----

  /** The passage stands in the text at the offset. */
  predicate StandsAt(text: string, passage: string, start: int) {
    0 <= start && start + |passage| <= |text| && text[start..start + |passage|] == passage
  }

  /** What a citation row needs. */
  predicate MayCite(t: Tables, row: Row, c: Citation) {
    && c.version in t.versions && StandsAt(t.versions[c.version].text, c.passage, c.start)
    && 1 <= |c.passage| <= 1000 && 1 <= |c.location| <= 200
    && Row(row.table, c.parent) in t.claims
    && forall key :: key in t.cites && key != row ==> !(key.table == row.table && SameLabel(t.cites[key], c))
  }

  predicate SameLabel(c: Citation, d: Citation) {
    c.parent == d.parent && c.version == d.version && c.location == d.location
  }

  lemma StandsIffSubstr(text: string, passage: string, start: int)
    requires start >= 0 && |passage| >= 1
    ensures Substr(text, start, |passage|) == passage <==> StandsAt(text, passage, start)
  {
    if Substr(text, start, |passage|) == passage {
      SubstrIsASlice(text, start, passage);
    }
  }

  lemma MayCiteIsAllowed(t: Tables, row: Row, c: Citation)
    ensures CitationAllowed(t, row, c) <==> MayCite(t, row, c)
  {
    if c.version in t.versions && c.start >= 0 && |c.passage| >= 1 {
      StandsIffSubstr(t.versions[c.version].text, c.passage, c.start);
    }
    if LabelTaken(t, row, c) {
      var key :| key in t.cites && key != row && Clash(row, c, key, t.cites[key]);
    }
    forall key | key in t.cites && key != row && key.table == row.table && SameLabel(t.cites[key], c)
      ensures LabelTaken(t, row, c)
    {
      assert Clash(row, c, key, t.cites[key]);
    }
  }

  lemma MoreCitationsBack(t: Tables, row: Row, c: Citation)
    requires row !in t.cites && AllBacked(t)
    ensures AllBacked(t.(cites := t.cites[row := c]))
  {
    var t' := t.(cites := t.cites[row := c]);
    forall r | r in t'.claims && t'.claims[r].public ensures Backed(t', r) {
      assert Backed(t, r);
      var key :| key in t.cites && Backs(t, key, r);
      assert Backs(t', key, r);
    }
  }

  /**
   A citation goes in if and only if it quotes its version exactly, its claim is there, and its label is not
   taken.
   */
  lemma CitationGoesInIff(t: Tables, row: Row, c: Citation)
    requires Good(t)
    ensures Transact(t, [InsertCitation(row, c)])
            == if row !in t.cites && MayCite(t, row, c) then t.(cites := t.cites[row := c]) else t
  {
    OneStatement(Txn(t, {}), InsertCitation(row, c));
    CommitsIffAllBacked(t, [InsertCitation(row, c)]);
    MayCiteIsAllowed(t, row, c);
    assert AllBacked(t) by {
      AllBackedIsSupported(t);
    }
    if row !in t.cites {
      MoreCitationsBack(t, row, c);
    }
  }

  lemma FewerCitationsBack(t: Tables, row: Row)
    requires AllBacked(t) && row in t.cites
    ensures var parent := Row(row.table, t.cites[row].parent);
            AllBacked(t.(cites := t.cites - {row}))
            <==> || parent !in t.claims || !t.claims[parent].public
                 || exists key :: key in t.cites && key != row && Backs(t, key, parent)
  {
    var parent := Row(row.table, t.cites[row].parent);
    var t' := t.(cites := t.cites - {row});
    forall key, r ensures Backs(t', key, r) <==> key != row && Backs(t, key, r) {
    }
    forall r | r in t.claims && t.claims[r].public && r != parent ensures Backed(t', r) {
      assert Backed(t, r);
      var key :| key in t.cites && Backs(t, key, r);
      assert key in t'.cites && Backs(t', key, r);
    }
    if key :| key in t.cites && key != row && Backs(t, key, parent) {
      assert key in t'.cites && Backs(t', key, parent);
    }
    if Backed(t', parent) {
      var key :| key in t'.cites && Backs(t', key, parent);
      assert key in t.cites && key != row && Backs(t, key, parent);
    }
  }

  /** A citation comes out if and only if its claim is not public or another citation backs it. */
  lemma CitationComesOutIff(t: Tables, row: Row)
    requires Good(t) && row in t.cites
    ensures var parent := Row(row.table, t.cites[row].parent);
            Transact(t, [DeleteCitation(row)])
            == if || parent !in t.claims || !t.claims[parent].public
                  || exists key :: key in t.cites && key != row && Backs(t, key, parent)
               then t.(cites := t.cites - {row}) else t
  {
    OneStatement(Txn(t, {}), DeleteCitation(row));
    CommitsIffAllBacked(t, [DeleteCitation(row)]);
    assert ExecDeleteCitation(Txn(t, {}), row).value.t == t.(cites := t.cites - {row});
    assert AllBacked(t) by {
      AllBackedIsSupported(t);
    }
    FewerCitationsBack(t, row);
  }

  function CitationsElsewhere(t: Tables, row: Row): map<Row, Citation> {
    map key | key in t.cites && !(key.table == row.table && t.cites[key].parent == row.id) :: t.cites[key]
  }

  lemma OthersStayBacked(t: Tables, row: Row)
    requires AllBacked(t)
    ensures AllBacked(t.(claims := t.claims - {row}, cites := CitationsElsewhere(t, row)))
  {
    var t' := t.(claims := t.claims - {row}, cites := CitationsElsewhere(t, row));
    forall r | r in t'.claims && t'.claims[r].public ensures Backed(t', r) {
      assert Backed(t, r);
      var key :| key in t.cites && Backs(t, key, r);
      assert key in t'.cites && Backs(t', key, r);
    }
  }

  lemma DeletedTables(t: Tables, row: Row)
    requires row in t.claims
    ensures ExecDeleteClaim(Txn(t, {}), row).Some?
    ensures ExecDeleteClaim(Txn(t, {}), row).value.t
            == t.(claims := t.claims - {row}, cites := CitationsElsewhere(t, row))
  {
    assert t.cites - CitationsOf(t, row) == CitationsElsewhere(t, row);
  }

  /** Deleting a claim always commits and takes exactly its own citations with it. */
  lemma ClaimComesOut(t: Tables, row: Row)
    requires Good(t) && row in t.claims
    ensures Transact(t, [DeleteClaim(row)]) == t.(claims := t.claims - {row}, cites := CitationsElsewhere(t, row))
  {
    OneStatement(Txn(t, {}), DeleteClaim(row));
    CommitsIffAllBacked(t, [DeleteClaim(row)]);
    DeletedTables(t, row);
    assert AllBacked(t) by {
      AllBackedIsSupported(t);
    }
    OthersStayBacked(t, row);
  }

  /** What a claim row needs; days are civil days in Lagos. */
  predicate MayClaim(t: Tables, row: Row, c: Claim) {
    && c.project in t.projects && 1 <= |c.statement| <= 2000
    && (c.lastCheckedOn.Some? ==> c.lastCheckedOn.value <= (c.updatedAt + 3_600_000_000) / 86_400_000_000)
    && (c.public ==> c.publishedAt.Some? && (c.effectiveOn.Some? || c.lastCheckedOn.Some?))
    && (c.public && row.table == Updates ==> c.effectiveOn.Some? && c.verification != AwaitingVerification)
  }

  lemma MayClaimIsAllowed(t: Tables, row: Row, c: Claim)
    ensures ClaimAllowed(t, row, c) <==> MayClaim(t, row, c)
  {
  }

  lemma OneMoreClaim(t: Tables, row: Row, c: Claim)
    requires Good(t) && row !in t.claims
    ensures AllBacked(t.(claims := t.claims[row := c])) <==> !c.public
  {
    var t' := t.(claims := t.claims[row := c]);
    AllBackedIsSupported(t);
    forall key, r ensures Backs(t', key, r) <==> Backs(t, key, r) {
    }
    forall r ensures Backed(t', r) <==> Backed(t, r) {
    }
    forall key | key in t.cites ensures !Backs(t, key, row) {
      assert CitationAllowed(t, key, t.cites[key]);
    }
    assert !Backed(t, row);
  }

  /** A claim goes in on its own if and only if it is a draft whose checks hold: a public one has no citation yet. */
  lemma ClaimGoesInIff(t: Tables, row: Row, c: Claim)
    requires Good(t)
    ensures Transact(t, [InsertClaim(row, c)])
            == if row !in t.claims && MayClaim(t, row, c) && !c.public then t.(claims := t.claims[row := c]) else t
  {
    OneStatement(Txn(t, {}), InsertClaim(row, c));
    CommitsIffAllBacked(t, [InsertClaim(row, c)]);
    MayClaimIsAllowed(t, row, c);
    if row !in t.claims {
      OneMoreClaim(t, row, c);
    }
  }

  lemma CitedClaimIsBacked(t: Tables, row: Row, c: Claim, key: Row, d: Citation)
    requires Good(t) && row !in t.claims && key !in t.cites && key.table == row.table && d.parent == row.id
    requires d.version in t.versions
    ensures AllBacked(t.(claims := t.claims[row := c], cites := t.cites[key := d]))
            <==> !c.public || Carries(t.versions[d.version].state)
  {
    var t' := t.(claims := t.claims[row := c], cites := t.cites[key := d]);
    AllBackedIsSupported(t);
    forall k, r
      ensures Backs(t', k, r) <==> Backs(t, k, r) || (k == key && r == row && Carries(t.versions[d.version].state))
    {
    }
    forall k | k in t.cites ensures !Backs(t, k, row) {
      assert CitationAllowed(t, k, t.cites[k]);
    }
    forall r | r in t.claims && t.claims[r].public ensures Backed(t', r) {
      assert Backed(t, r);
      var k :| k in t.cites && Backs(t, k, r);
      assert k in t'.cites && Backs(t', k, r);
    }
    if Carries(t.versions[d.version].state) {
      assert key in t'.cites && Backs(t', key, row);
    }
    assert row in t'.claims && t'.claims[row] == c;
  }

  /**
   A public claim goes in with its first citation if and only if both rows are in order and the version carries
   claims.
   */
  lemma CitedClaimGoesInIff(t: Tables, row: Row, c: Claim, key: Row, d: Citation)
    requires Good(t) && c.public && key.table == row.table && d.parent == row.id
    ensures var t1 := t.(claims := t.claims[row := c]);
            Transact(t, [InsertClaim(row, c), InsertCitation(key, d)])
            == if && row !in t.claims && MayClaim(t, row, c) && key !in t.cites && MayCite(t1, key, d)
                  && (t.versions[d.version].state == Approved || t.versions[d.version].state == Superseded)
               then t1.(cites := t1.cites[key := d]) else t
  {
    var t1 := t.(claims := t.claims[row := c]);
    var a, b := InsertClaim(row, c), InsertCitation(key, d);
    CommitsIffAllBacked(t, [a, b]);
    MayClaimIsAllowed(t, row, c);
    MayCiteIsAllowed(t1, key, d);
    assert [a, b][1..] == [b];
    if Exec(Txn(t, {}), a).Some? {
      OneStatement(Exec(Txn(t, {}), a).value, b);
      if key !in t.cites && d.version in t.versions {
        CitedClaimIsBacked(t, row, c, key, d);
      }
    }
  }

  // ---- Chunks ----

  /** Some public fact or update of a public project cites the version. */
  predicate CitedFor(t: Tables, project: Id, version: Id) {
    exists key :: key in t.cites && t.cites[key].version == version
                  && ClaimIsPublicIn(t, Row(key.table, t.cites[key].parent), project)
  }

  predicate ClaimIsPublicIn(t: Tables, row: Row, project: Id) {
    row in t.claims && t.claims[row].public && t.claims[row].project == project
  }

  /** What makes a document part of the public corpus. */
  predicate InCorpus(t: Tables, c: Chunk) {
    && c.project in t.projects && t.projects[c.project].public && CitedFor(t, c.project, c.version)
    && c.version in t.versions && t.versions[c.version].state == Approved
    && t.versions[c.version].source == c.source && t.versions[c.version].language == c.language
    && c.source in t.sources && t.sources[c.source].available
  }

  lemma CorpusIsApproved(t: Tables, c: Chunk)
    ensures ApprovedDocument(t, c.project, c.source, c.version, c.language) <==> InCorpus(t, c)
  {
    assert forall key :: key in t.cites ==>
             (CitesPublicly(t, key, c.project, c.version)
              <==> t.cites[key].version == c.version
                   && ClaimIsPublicIn(t, Row(key.table, t.cites[key].parent), c.project));
  }

  /** In every state of every run: which chunks the public can read, from the tables alone. */
  lemma ChunkIsReadIff(transactions: seq<seq<Statement>>, id: Id)
    ensures var t := Serial(EMPTY, transactions);
            PublicChunk(t, id) <==> id in t.chunks && t.chunks[id].active && InCorpus(t, t.chunks[id])
  {
    ReachedIsGood(transactions);
    ChunkIsVisibleIff(EMPTY, transactions, id);
    var t := Serial(EMPTY, transactions);
    if id in t.chunks {
      CorpusIsApproved(t, t.chunks[id]);
    }
  }

  predicate SamePlace(c: Chunk, d: Chunk) {
    c.project == d.project && c.version == d.version && c.language == d.language && c.index == d.index
  }

  /** What a chunk row needs. */
  predicate MayChunk(t: Tables, id: Id, c: Chunk) {
    && c.version in t.versions && c.project in t.projects && c.source in t.sources
    && t.versions[c.version].source == c.source && t.versions[c.version].language == c.language
    && c.end - c.start == |c.text| && 1 <= |c.text| <= 900 && StandsAt(t.versions[c.version].text, c.text, c.start)
    && c.digest == Digest(c.text) && c.index >= 0
    && (forall k :: k in t.chunks && k != id ==> !SamePlace(t.chunks[k], c))
    && (c.active ==> InCorpus(t, c))
  }

  lemma MayChunkIsAllowed(t: Tables, id: Id, c: Chunk)
    ensures ChunkAllowed(t, id, c) <==> MayChunk(t, id, c)
  {
    CorpusIsApproved(t, c);
    if c.version in t.versions && c.start >= 0 && |c.text| >= 1 {
      StandsIffSubstr(t.versions[c.version].text, c.text, c.start);
    }
  }

  lemma MoreChunks(t: Tables, id: Id, c: Chunk)
    requires AllBacked(t)
    ensures AllBacked(t.(chunks := t.chunks[id := c]))
  {
    var t' := t.(chunks := t.chunks[id := c]);
    forall key, r ensures Backs(t', key, r) <==> Backs(t, key, r) {
    }
    forall r | r in t'.claims && t'.claims[r].public ensures Backed(t', r) {
      assert Backed(t, r);
    }
  }

  /**
   A chunk goes in if and only if it is an exact slice of its version, and if active its document is in the
   corpus.
   */
  lemma ChunkGoesInIff(t: Tables, id: Id, c: Chunk)
    requires Good(t)
    ensures Transact(t, [InsertChunk(id, c)])
            == if id !in t.chunks && MayChunk(t, id, c) then t.(chunks := t.chunks[id := c]) else t
  {
    OneStatement(Txn(t, {}), InsertChunk(id, c));
    CommitsIffAllBacked(t, [InsertChunk(id, c)]);
    MayChunkIsAllowed(t, id, c);
    assert AllBacked(t) by {
      AllBackedIsSupported(t);
    }
    MoreChunks(t, id, c);
  }
}
