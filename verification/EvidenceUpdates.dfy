/**
 The other statements on the evidence tables, said in terms of the tables alone: new sources and versions, and
 rows that are written again in place.
 */
module EvidenceUpdates {
  import opened Wrappers
  import opened Evidence
  import opened EvidenceLaws

  /** Claims and citations alone decide what is backed, and of versions only the states. */
  lemma SameBacking(t: Tables, t': Tables)
    requires t'.claims == t.claims && t'.cites == t.cites && AllBacked(t)
    requires forall v :: v in t.versions ==> v in t'.versions && t'.versions[v].state == t.versions[v].state
    ensures AllBacked(t')
  {
    forall row | row in t'.claims && t'.claims[row].public ensures Backed(t', row) {
      assert Backed(t, row);
      var key :| key in t.cites && Backs(t, key, row);
      assert Backs(t', key, row);
    }
  }

  /** A statement on its own, if it does not raise, commits when what it leaves is backed. */
  lemma CommitsAlone(t: Tables, s: Statement, t': Tables)
    requires Good(t) && Exec(Txn(t, {}), s).Some? && Exec(Txn(t, {}), s).value.t == t'
    ensures Transact(t, [s]) == if AllBacked(t') then t' else t
  {
    OneStatement(Txn(t, {}), s);
    CommitsIffAllBacked(t, [s]);
  }

  lemma RaisesAlone(t: Tables, s: Statement)
    requires Exec(Txn(t, {}), s).None?
    ensures Transact(t, [s]) == t
  {
    OneStatement(Txn(t, {}), s);
  }

  lemma GoodIsBacked(t: Tables)
    requires Good(t)
    ensures AllBacked(t)
  {
    AllBackedIsSupported(t);
  }

  // ---- Sources and versions ----

  predicate Blank(c: char) {
    c == ' ' || c == '\t' || c == '\n' || c == '\r' || c == '\U{0B}' || c == '\U{0C}'
  }

  predicate WebAddress(url: string) {
    && |url| <= 2048 && (forall i :: 0 <= i < |url| ==> !Blank(url[i]))
    && ((|url| >= 8 && url[..7] == "http://") || (|url| >= 9 && url[..8] == "https://"))
  }

  /** What a source row needs. */
  predicate MaySource(t: Tables, id: Id, s: Source) {
    && WebAddress(s.url) && |s.title| > 0 && |s.publisher| > 0
    && (s.kind == "government_publication" || s.kind == "budget_document" || s.kind == "procurement_record"
        || s.kind == "audit_oversight_report" || s.kind == "independent_media" || s.kind == "civic_research"
        || s.kind == "community_evidence" || s.kind == "other_public_source")
    && (s.informationClass == "official_source" || s.informationClass == "independent_source"
        || s.informationClass == "community_evidence_reviewed")
    && forall k :: k in t.sources && k != id ==> t.sources[k].url != s.url
  }

  lemma UrlIff(url: string)
    ensures UrlChecks(url) <==> WebAddress(url)
  {
    forall i | 0 <= i < |url| ensures url[i] in SPACES <==> Blank(url[i]) {
    }
    if "http://" <= url {
      assert url[..7] == "http://";
    }
    if "https://" <= url {
      assert url[..8] == "https://";
    }
  }

  /** A source is written if and only if its address, names and kinds are in order and its address is its own. */
  lemma SourceIsWrittenIff(t: Tables, id: Id, s: Source)
    requires Good(t)
    ensures Transact(t, [PutSource(id, s)]) == if MaySource(t, id, s) then t.(sources := t.sources[id := s]) else t
  {
    UrlIff(s.url);
    if Exec(Txn(t, {}), PutSource(id, s)).Some? {
      CommitsAlone(t, PutSource(id, s), t.(sources := t.sources[id := s]));
      GoodIsBacked(t);
      SameBacking(t, t.(sources := t.sources[id := s]));
    } else {
      RaisesAlone(t, PutSource(id, s));
    }
  }

  predicate VersionInOrder(v: Version) {
    && 1 <= |v.text| <= 500_000 && v.digest == Digest(v.text)
    && (v.language == "en" || v.language == "ha" || v.language == "ig" || v.language == "yo")
    && (v.state == Approved || v.state == Rejected || v.state == Superseded ==> v.reviewedAt.Some?)
  }

  /** A version goes in if and only if it is in order, its source is there, and the source has not that text already. */
  lemma VersionGoesInIff(t: Tables, id: Id, v: Version)
    requires Good(t)
    ensures Transact(t, [InsertVersion(id, v)])
            == if && id !in t.versions && VersionInOrder(v) && v.source in t.sources
                  && (forall k :: k in t.versions && t.versions[k].source == v.source ==> t.versions[k].text != v.text)
               then t.(versions := t.versions[id := v]) else t
  {
    var s, t' := InsertVersion(id, v), t.(versions := t.versions[id := v]);
    forall k | k in t.versions ensures t.versions[k].digest == Digest(t.versions[k].text) {
      assert VersionChecks(t.versions[k]);
    }
    if Exec(Txn(t, {}), s).Some? {
      CommitsAlone(t, s, t');
      GoodIsBacked(t);
      SameBacking(t, t');
    } else {
      RaisesAlone(t, s);
    }
  }

  /** Nothing of what a version says is ever written again, and no version is deleted. */
  lemma VersionsAreFixed(t: Tables, id: Id, v: Version, namesState: bool)
    requires Good(t) && id in t.versions
    requires var was := t.versions[id];
             v != was.(state := v.state, reviewedAt := v.reviewedAt)
    ensures Transact(t, [UpdateVersion(id, v, namesState)]) == t && Transact(t, [DeleteVersion(id)]) == t
  {
    RaisesAlone(t, UpdateVersion(id, v, namesState));
    RaisesAlone(t, DeleteVersion(id));
  }

  /**
   An UPDATE that does not name the state sets the date of the decision, which a decided version must keep, and
   nothing else.
   */
  lemma StateIsLeft(t: Tables, id: Id, v: Version)
    requires Good(t) && id in t.versions && v == t.versions[id].(state := v.state, reviewedAt := v.reviewedAt)
    ensures var was := t.versions[id];
            Transact(t, [UpdateVersion(id, v, false)])
            == if was.state == Pending || was.state == InReview || v.reviewedAt.Some?
               then t.(versions := t.versions[id := was.(reviewedAt := v.reviewedAt)]) else t
  {
    var was, s := t.versions[id], UpdateVersion(id, v, false);
    assert VersionChecks(was);
    var t' := t.(versions := t.versions[id := was.(reviewedAt := v.reviewedAt)]);
    if Exec(Txn(t, {}), s).Some? {
      assert v.(state := was.state) == was.(reviewedAt := v.reviewedAt);
      CommitsAlone(t, s, t');
      GoodIsBacked(t);
      SameBacking(t, t');
    } else {
      RaisesAlone(t, s);
    }
  }

  // ---- Claims written again ----

  lemma RewrittenClaimBacking(t: Tables, row: Row, c: Claim)
    requires AllBacked(t) && row in t.claims
    ensures AllBacked(t.(claims := t.claims[row := c])) <==> (c.public ==> Backed(t, row))
  {
    var t' := t.(claims := t.claims[row := c]);
    forall r ensures Backed(t', r) <==> Backed(t, r) {
      assert forall key :: Backs(t', key, r) <==> Backs(t, key, r);
    }
    assert row in t'.claims && t'.claims[row] == c;
  }

  /** A claim is rewritten if and only if its checks hold and, to be public, it is backed. */
  lemma ClaimIsRewrittenIff(t: Tables, row: Row, c: Claim)
    requires Good(t) && row in t.claims
    ensures Transact(t, [UpdateClaim(row, row.id, c)])
            == if MayClaim(t, row, c) && (c.public ==> Backed(t, row)) then t.(claims := t.claims[row := c]) else t
  {
    var s, t' := UpdateClaim(row, row.id, c), t.(claims := t.claims[row := c]);
    MayClaimIsAllowed(t, row, c);
    GoodIsBacked(t);
    RewrittenClaimBacking(t, row, c);
    assert (t.claims - {row})[row := c] == t.claims[row := c];
    if Exec(Txn(t, {}), s).Some? {
      CommitsAlone(t, s, t');
    } else {
      RaisesAlone(t, s);
    }
  }

  lemma RenamedClaimBacking(t: Tables, row: Row, row': Row, c: Claim)
    requires Good(t) && row in t.claims && row' !in t.claims
    ensures AllBacked(t.(claims := (t.claims - {row})[row' := c])) <==> !c.public
  {
    var t' := t.(claims := (t.claims - {row})[row' := c]);
    GoodIsBacked(t);
    forall r ensures Backed(t', r) <==> Backed(t, r) {
      assert forall key :: Backs(t', key, r) <==> Backs(t, key, r);
    }
    forall key | key in t.cites ensures !Backs(t, key, row') {
      assert CitationAllowed(t, key, t.cites[key]);
    }
    assert !Backed(t, row');
    assert row' in t'.claims && t'.claims[row'] == c;
  }

  /** A claim gets another id if and only if that id is free, nothing cites for it, and it is not public then. */
  lemma ClaimIsRenamedIff(t: Tables, row: Row, newId: Id, c: Claim)
    requires Good(t) && row in t.claims && newId != row.id
    ensures var row' := Row(row.table, newId);
            Transact(t, [UpdateClaim(row, newId, c)])
            == if && MayClaim(t, row', c) && row' !in t.claims && !c.public
                  && (forall key :: key in t.cites ==> !(key.table == row.table && t.cites[key].parent == row.id))
               then t.(claims := (t.claims - {row})[row' := c]) else t
  {
    var row', s := Row(row.table, newId), UpdateClaim(row, newId, c);
    MayClaimIsAllowed(t, row', c);
    forall key | key in t.cites
      ensures ParentOf(key, t.cites[key]) == row <==> key.table == row.table && t.cites[key].parent == row.id
    {
    }
    if Exec(Txn(t, {}), s).Some? {
      RenamedClaimBacking(t, row, row', c);
      CommitsAlone(t, s, t.(claims := (t.claims - {row})[row' := c]));
    } else {
      RaisesAlone(t, s);
    }
  }

  // ---- Citations written again ----

  function Rewritten(t: Tables, row: Row, row': Row, c: Citation): Tables {
    t.(cites := (t.cites - {row})[row' := c])
  }

  lemma RewrittenCitationBacking(t: Tables, row: Row, row': Row, c: Citation)
    requires AllBacked(t) && row in t.cites && (row' == row || row' !in t.cites)
    ensures var parent := Row(row.table, t.cites[row].parent);
            AllBacked(Rewritten(t, row, row', c))
            <==> (parent in t.claims && t.claims[parent].public ==> Backed(Rewritten(t, row, row', c), parent))
  {
    var parent, t' := Row(row.table, t.cites[row].parent), Rewritten(t, row, row', c);
    forall r | r in t.claims && t.claims[r].public && r != parent ensures Backed(t', r) {
      assert Backed(t, r);
      var key :| key in t.cites && Backs(t, key, r);
      assert key != row;
      assert key in t'.cites && Backs(t', key, r);
    }
  }

  /**
   A citation is written again if and only if it is in order among the others, and its old claim is left backed
   or is not public.
   */
  lemma CitationIsRewrittenIff(t: Tables, row: Row, newId: Id, c: Citation)
    requires Good(t) && row in t.cites
    ensures var row', parent := Row(row.table, newId), Row(row.table, t.cites[row].parent);
            Transact(t, [UpdateCitation(row, newId, c)])
            == if && MayCite(t.(cites := t.cites - {row}), row', c) && (row' == row || row' !in t.cites)
                  && (parent in t.claims && t.claims[parent].public ==> Backed(Rewritten(t, row, row', c), parent))
               then Rewritten(t, row, row', c) else t
  {
    var row', s := Row(row.table, newId), UpdateCitation(row, newId, c);
    MayCiteIsAllowed(t.(cites := t.cites - {row}), row', c);
    if Exec(Txn(t, {}), s).Some? {
      GoodIsBacked(t);
      RewrittenCitationBacking(t, row, row', c);
      CommitsAlone(t, s, Rewritten(t, row, row', c));
    } else {
      RaisesAlone(t, s);
    }
  }

  /** A chunk is written again under the same conditions as a new one. */
  lemma ChunkIsRewrittenIff(t: Tables, id: Id, c: Chunk)
    requires Good(t) && id in t.chunks
    ensures Transact(t, [UpdateChunk(id, c)]) == if MayChunk(t, id, c) then t.(chunks := t.chunks[id := c]) else t
  {
    MayChunkIsAllowed(t, id, c);
    if Exec(Txn(t, {}), UpdateChunk(id, c)).Some? {
      GoodIsBacked(t);
      SameBacking(t, t.(chunks := t.chunks[id := c]));
      CommitsAlone(t, UpdateChunk(id, c), t.(chunks := t.chunks[id := c]));
    } else {
      RaisesAlone(t, UpdateChunk(id, c));
    }
  }
}
