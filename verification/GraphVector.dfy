/**
 Batched inserts into the graph vector store and the loop that deletes until nothing matches.

 The backend is arbitrary: functions from a store of any type say what it answers and how the store
 changes, and it may do nothing or answer wrongly.  Ghost results record every round and every call.
 */
module GraphVector {
  import opened Options
  import opened Sequences

  const MAX_INSERT_BATCH_SIZE := 200
  const DEFAULT_INSERT_BATCH_SIZE := 32
  const MAX_EMBEDDING_REQUEST_ITEMS := 10

  // Boundaries.

  datatype Privacy = Public | Shared | Confidential | OtherPrivacy

  /** The proof a document carries about where it comes from. */
  datatype Boundary = Boundary(scopeKey: string, privacy: Privacy, revision: string)

  /** The metadata fields that matter; metadata that cannot be read has none of them. */
  datatype Metadata = Metadata(source: Option<int>, scopeKey: Option<string>, privacy: Option<Privacy>, revision: Option<string>)

  const NoMetadata := Metadata(None, None, None, None)

  predicate Blank(s: string) {
    forall c :: c in s ==> c == ' ' || c == '\t' || c == '\n' || c == '\r'
  }

  predicate ValidBoundary(b: Boundary) {
    !Blank(b.scopeKey) && !Blank(b.revision) && b.privacy != OtherPrivacy
  }

  /** The persisted boundary, if the metadata proves one. */
  function BoundaryOf(m: Metadata): Option<Boundary> {
    if m.scopeKey.None? || m.privacy.None? || m.revision.None? then None
    else
      var b := Boundary(m.scopeKey.value, m.privacy.value, m.revision.value);
      if ValidBoundary(b) then Some(b) else None
  }

  datatype Document = Document(docId: Option<string>, metadata: Option<Metadata>)

  function Coerce(raw: Option<Metadata>): Metadata { if raw.Some? then raw.value else NoMetadata }

  /** The document's own metadata names the source, and the boundary when one is asked for. */
  predicate Matches(doc: Document, source: int, boundary: Option<Boundary>) {
    var m := Coerce(doc.metadata);
    && (boundary.Some? ==> BoundaryOf(m) == boundary)
    && m.source == Some(source)
  }

  /** The document can be deleted: it has an identifier that is not empty. */
  predicate HasId(doc: Document) { doc.docId.Some? && doc.docId.value != "" }

  // Deleting.

  datatype DeleteReply = Deleted | ReturnedFalse | DeleteRaised

  datatype Backend<!S> = Backend(fetch: S -> Option<seq<Document>>, delete: (S, string) -> (S, DeleteReply))

  datatype DeleteOutcome = Count(n: nat) | DeleteUnsupported | FilteringRequired | MissingIds | NoProgress | BackendRaised

  function Matching(docs: seq<Document>, source: int, boundary: Option<Boundary>): seq<Document> {
    if docs == [] then []
    else Matching(docs[..|docs| - 1], source, boundary)
         + (if Matches(docs[|docs| - 1], source, boundary) then [docs[|docs| - 1]] else [])
  }

  function Deletable(docs: seq<Document>): seq<Document> {
    if docs == [] then []
    else Deletable(docs[..|docs| - 1]) + (if HasId(docs[|docs| - 1]) then [docs[|docs| - 1]] else [])
  }

  function IdOf(doc: Document): string { if doc.docId.Some? then doc.docId.value else "" }

  function Ids(docs: seq<Document>): set<string> { set d | d in docs :: IdOf(d) }

  /** The store after deleting the documents in turn. */
  function DeleteAll<S>(b: Backend<S>, s: S, docs: seq<Document>): S {
    if docs == [] then s else b.delete(DeleteAll(b, s, docs[..|docs| - 1]), IdOf(docs[|docs| - 1])).0
  }

  function After<S>(b: Backend<S>, s: S, rounds: seq<seq<Document>>): S {
    if rounds == [] then s else DeleteAll(b, After(b, s, rounds[..|rounds| - 1]), rounds[|rounds| - 1])
  }

  function IdsOfRounds(rounds: seq<seq<Document>>): set<string> {
    if rounds == [] then {} else IdsOfRounds(rounds[..|rounds| - 1]) + Ids(rounds[|rounds| - 1])
  }

  function SumLengths<T>(rounds: seq<seq<T>>): nat {
    if rounds == [] then 0 else SumLengths(rounds[..|rounds| - 1]) + |rounds[|rounds| - 1]|
  }

  /** Round `i` deleted all deletable matches of what the backend answered, and none twice over the rounds. */
  ghost predicate RoundOk<S>(b: Backend<S>, s: S, rounds: seq<seq<Document>>, i: nat, source: int, boundary: Option<Boundary>)
    requires i < |rounds|
  {
    var now := After(b, s, rounds[..i]);
    && b.fetch(now).Some?
    && rounds[i] == Deletable(Matching(b.fetch(now).value, source, boundary))
    && rounds[i] != []
    && Ids(rounds[i]) !! IdsOfRounds(rounds[..i])
  }

  ghost predicate IsRun<S>(b: Backend<S>, s: S, rounds: seq<seq<Document>>, source: int, boundary: Option<Boundary>) {
    forall i :: 0 <= i < |rounds| ==> RoundOk(b, s, rounds, i, source, boundary)
  }

  lemma {:induction false} MatchingMembers(docs: seq<Document>, source: int, boundary: Option<Boundary>)
    ensures forall d :: d in Matching(docs, source, boundary) <==> d in docs && Matches(d, source, boundary)
    ensures forall d :: d in Deletable(docs) <==> d in docs && HasId(d)
  {
    if docs != [] {
      MatchingMembers(docs[..|docs| - 1], source, boundary);
      assert docs == docs[..|docs| - 1] + [docs[|docs| - 1]];
    }
  }

  lemma SnocRun<S>(b: Backend<S>, s: S, rounds: seq<seq<Document>>, last: seq<Document>, source: int, boundary: Option<Boundary>)
    requires IsRun(b, s, rounds, source, boundary)
    requires var now := After(b, s, rounds);
      && b.fetch(now).Some? && last == Deletable(Matching(b.fetch(now).value, source, boundary))
      && last != [] && Ids(last) !! IdsOfRounds(rounds)
    ensures IsRun(b, s, rounds + [last], source, boundary)
  {
    var all := rounds + [last];
    assert all[..|rounds|] == rounds;
    assert RoundOk(b, s, all, |rounds|, source, boundary);
    forall i | 0 <= i < |rounds| ensures RoundOk(b, s, all, i, source, boundary) {
      assert RoundOk(b, s, rounds, i, source, boundary);
      assert all[..i] == rounds[..i] && all[i] == rounds[i];
    }
  }

  /** Every document of a round is shown by the backend, matches and has an identifier. */
  lemma RoundDocuments(shown: seq<Document>, source: int, boundary: Option<Boundary>)
    ensures forall d :: d in Deletable(Matching(shown, source, boundary)) <==>
      d in shown && Matches(d, source, boundary) && HasId(d)
  {
    MatchingMembers(shown, source, boundary);
    MatchingMembers(Matching(shown, source, boundary), source, boundary);
  }

  function Flatten(rounds: seq<seq<Document>>): seq<Document> {
    if rounds == [] then [] else Flatten(rounds[..|rounds| - 1]) + rounds[|rounds| - 1]
  }

  lemma {:induction false} DeleteAllConcat<S>(b: Backend<S>, s: S, first: seq<Document>, second: seq<Document>)
    ensures DeleteAll(b, s, first + second) == DeleteAll(b, DeleteAll(b, s, first), second)
    decreases |second|
  {
    if second == [] {
      assert first + second == first;
    } else {
      var init := second[..|second| - 1];
      DeleteAllConcat(b, s, first, init);
      assert (first + second)[..|first + second| - 1] == first + init;
    }
  }

  /** The stores that the rounds go through are reached from the first one by deletions. */
  lemma {:induction false} AfterIsReached<S>(b: Backend<S>, s: S, rounds: seq<seq<Document>>)
    ensures After(b, s, rounds) == DeleteAll(b, s, Flatten(rounds))
  {
    if rounds != [] {
      AfterIsReached(b, s, rounds[..|rounds| - 1]);
      DeleteAllConcat(b, s, Flatten(rounds[..|rounds| - 1]), rounds[|rounds| - 1]);
    }
  }

  /** The identifiers the backend can show after any deletions from `s` are finitely many. */
  ghost predicate FiniteIds<S>(b: Backend<S>, s: S, universe: set<string>) {
    forall docs: seq<Document> :: ShownWithin(b, DeleteAll(b, s, docs), universe)
  }

  ghost predicate ShownWithin<S>(b: Backend<S>, s: S, universe: set<string>) {
    b.fetch(s).Some? ==> forall d :: d in b.fetch(s).value ==> IdOf(d) in universe
  }

  lemma RoundProgress<S>(b: Backend<S>, now: S, docs: seq<Document>, universe: set<string>, deletedIds: set<string>)
    requires ShownWithin(b, now, universe) && b.fetch(now).Some? && (forall d :: d in docs ==> d in b.fetch(now).value)
    requires docs != [] && Ids(docs) !! deletedIds && deletedIds <= universe
    ensures Ids(docs) <= universe && universe - (deletedIds + Ids(docs)) < universe - deletedIds
  {
    var id := IdOf(docs[0]);
    assert docs[0] in docs && id in Ids(docs);
    assert id in universe - deletedIds && id !in universe - (deletedIds + Ids(docs));
  }

  function DeleteReplyTo<S>(b: Backend<S>, s: S, docs: seq<Document>, i: nat): DeleteReply
    requires i < |docs|
  {
    b.delete(DeleteAll(b, s, docs[..i]), IdOf(docs[i])).1
  }

  /** Each of the first `n` deletions in turn is answered as done. */
  predicate FirstDeleted<S>(b: Backend<S>, s: S, docs: seq<Document>, n: nat)
    requires n <= |docs|
  {
    n == 0 || (FirstDeleted(b, s, docs, n - 1) && DeleteReplyTo(b, s, docs, n - 1) == Deleted)
  }

  lemma {:induction false} FirstDeletedIsAll<S>(b: Backend<S>, s: S, docs: seq<Document>, n: nat)
    requires n <= |docs|
    ensures FirstDeleted(b, s, docs, n) <==> forall i :: 0 <= i < n ==> DeleteReplyTo(b, s, docs, i) == Deleted
  {
    if n > 0 {
      FirstDeletedIsAll(b, s, docs, n - 1);
    }
  }

  lemma DeleteNext<S>(b: Backend<S>, s: S, docs: seq<Document>, done: nat)
    requires done < |docs|
    ensures DeleteAll(b, s, docs[..done + 1]) == b.delete(DeleteAll(b, s, docs[..done]), IdOf(docs[done])).0
  {
    assert docs[..done + 1][..done] == docs[..done];
  }

  /** Deletes the documents of one round, stopping at the first reply that is not a deletion. */
  method DeleteRound<S>(b: Backend<S>, s: S, docs: seq<Document>) returns (ok: bool, raised: bool, s': S, done: nat)
    ensures done <= |docs| && s' == DeleteAll(b, s, docs[..done])
    ensures ok ==> done == |docs|
    ensures ok ==> FirstDeleted(b, s, docs, done)
    ensures !ok ==> 0 < done && FirstDeleted(b, s, docs, done - 1)
    ensures !ok ==> DeleteReplyTo(b, s, docs, done - 1) == if raised then DeleteRaised else ReturnedFalse
  {
    s', done, raised := s, 0, false;
    while done < |docs|
      invariant done <= |docs| && s' == DeleteAll(b, s, docs[..done])
      invariant FirstDeleted(b, s, docs, done)
    {
      DeleteNext(b, s, docs, done);
      var (next, reply) := b.delete(s', IdOf(docs[done]));
      if reply != Deleted {
        return false, reply.DeleteRaised?, next, done + 1;
      }
      s', done := next, done + 1;
    }
    ok := true;
  }

  /** What the state of the loop is after some completed rounds. */
  ghost predicate Progress<S>(b: Backend<S>, s: S, rounds: seq<seq<Document>>, source: int, boundary: Option<Boundary>,
                              now: S, deleted: nat, deletedIds: set<string>, universe: set<string>) {
    && IsRun(b, s, rounds, source, boundary)
    && now == After(b, s, rounds)
    && deleted == SumLengths(rounds)
    && deletedIds == IdsOfRounds(rounds) <= universe
  }

  lemma RoundStep<S>(b: Backend<S>, s: S, rounds: seq<seq<Document>>, docs: seq<Document>, source: int, boundary: Option<Boundary>,
                     now: S, deleted: nat, deletedIds: set<string>, universe: set<string>)
    requires FiniteIds(b, s, universe) && Progress(b, s, rounds, source, boundary, now, deleted, deletedIds, universe)
    requires b.fetch(now).Some? && docs == Deletable(Matching(b.fetch(now).value, source, boundary))
    requires docs != [] && Ids(docs) !! deletedIds
    ensures Progress(b, s, rounds + [docs], source, boundary, DeleteAll(b, now, docs), deleted + |docs|, deletedIds + Ids(docs), universe)
    ensures universe - (deletedIds + Ids(docs)) < universe - deletedIds
  {
    RoundDocuments(b.fetch(now).value, source, boundary);
    AfterIsReached(b, s, rounds);
    assert ShownWithin(b, DeleteAll(b, s, Flatten(rounds)), universe);
    RoundProgress(b, now, docs, universe, deletedIds);
    SnocRun(b, s, rounds, docs, source, boundary);
  }

  /** The fetched documents of the next round. */
  function NextRound<S>(b: Backend<S>, now: S, source: int, boundary: Option<Boundary>): seq<Document>
    requires b.fetch(now).Some?
  {
    Deletable(Matching(b.fetch(now).value, source, boundary))
  }

  /** The round of `now` got as far as `partial`, whose last deletion was answered with `reply`. */
  ghost predicate StoppedBy<S>(b: Backend<S>, now: S, partial: seq<Document>, reply: DeleteReply, source: int, boundary: Option<Boundary>) {
    && b.fetch(now).Some? && partial != [] && partial <= NextRound(b, now, source, boundary)
    && FirstDeleted(b, now, partial, |partial| - 1)
    && DeleteReplyTo(b, now, partial, |partial| - 1) == reply
  }

  /** What each outcome says about the backend's last answers, `now` being the store after the completed rounds. */
  ghost predicate OutcomeOk<S>(b: Backend<S>, now: S, outcome: DeleteOutcome, rounds: seq<seq<Document>>, partial: seq<Document>,
                               source: int, boundary: Option<Boundary>) {
    match outcome
    case Count(n) =>
      n == SumLengths(rounds) && partial == [] && b.fetch(now).Some? && Matching(b.fetch(now).value, source, boundary) == []
    case MissingIds =>
      && partial == [] && b.fetch(now).Some?
      && Matching(b.fetch(now).value, source, boundary) != [] && NextRound(b, now, source, boundary) == []
    case NoProgress =>
      || (partial == [] && b.fetch(now).Some? && !(Ids(NextRound(b, now, source, boundary)) !! IdsOfRounds(rounds)))
      || StoppedBy(b, now, partial, ReturnedFalse, source, boundary)
    case BackendRaised =>
      || (partial == [] && b.fetch(now).None?)
      || StoppedBy(b, now, partial, DeleteRaised, source, boundary)
    case DeleteUnsupported => false
    case FilteringRequired => false
  }

  /** What the loop leaves: the rounds it completed, the store after them and after the failed round, and why it ended. */
  ghost predicate LoopResult<S>(b: Backend<S>, s: S, source: int, boundary: Option<Boundary>, outcome: DeleteOutcome, s': S,
                                rounds: seq<seq<Document>>, partial: seq<Document>) {
    && IsRun(b, s, rounds, source, boundary)
    && s' == DeleteAll(b, After(b, s, rounds), partial)
    && OutcomeOk(b, After(b, s, rounds), outcome, rounds, partial, source, boundary)
  }

  lemma {:induction false} SamePrefixDeleted<S>(b: Backend<S>, s: S, docs: seq<Document>, m: nat, n: nat)
    requires n <= m <= |docs| && FirstDeleted(b, s, docs, n)
    ensures FirstDeleted(b, s, docs[..m], n)
    decreases n
  {
    if n > 0 {
      SamePrefixDeleted(b, s, docs, m, n - 1);
      SamePrefixReply(b, s, docs, m, n - 1);
    }
  }

  lemma RoundStopped<S>(b: Backend<S>, now: S, docs: seq<Document>, done: nat, source: int, boundary: Option<Boundary>)
    requires b.fetch(now).Some? && docs == NextRound(b, now, source, boundary)
    requires 0 < done <= |docs| && FirstDeleted(b, now, docs, done - 1)
    ensures StoppedBy(b, now, docs[..done], DeleteReplyTo(b, now, docs, done - 1), source, boundary)
  {
    PartialRound(b, now, docs, done);
  }

  lemma PartialRound<S>(b: Backend<S>, now: S, docs: seq<Document>, done: nat)
    requires 0 < done <= |docs| && FirstDeleted(b, now, docs, done - 1)
    ensures var partial := docs[..done];
      && partial != [] && partial <= docs && FirstDeleted(b, now, partial, |partial| - 1)
      && DeleteReplyTo(b, now, partial, |partial| - 1) == DeleteReplyTo(b, now, docs, done - 1)
  {
    SamePrefixDeleted(b, now, docs, done, done - 1);
    SamePrefixReply(b, now, docs, done, done - 1);
    assert |docs[..done]| == done;
  }

  lemma SamePrefixReply<S>(b: Backend<S>, s: S, docs: seq<Document>, m: nat, n: nat)
    requires n < m <= |docs|
    ensures DeleteReplyTo(b, s, docs[..m], n) == DeleteReplyTo(b, s, docs, n)
  {
    assert docs[..m][..n] == docs[..n];
  }

  /**
   Deletes until a fetch shows no matching document.  `rounds` are the completed rounds, `partial` the
   deletions of a round that failed.  The loop ends because each round uses up identifiers.
   */
  method DeleteLoop<S>(b: Backend<S>, s: S, source: int, boundary: Option<Boundary>, ghost universe: set<string>)
    returns (outcome: DeleteOutcome, s': S, ghost rounds: seq<seq<Document>>, ghost partial: seq<Document>)
    requires FiniteIds(b, s, universe)
    ensures LoopResult(b, s, source, boundary, outcome, s', rounds, partial)
  {
    rounds, partial, s' := [], [], s;
    var deleted: nat := 0;
    var deletedIds: set<string> := {};
    while true
      invariant Progress(b, s, rounds, source, boundary, s', deleted, deletedIds, universe) && partial == []
      decreases universe - deletedIds
    {
      var fetched := b.fetch(s');
      if fetched.None? {
        return BackendRaised, s', rounds, partial;
      }
      var matching := Matching(fetched.value, source, boundary);
      if matching == [] {
        return Count(deleted), s', rounds, partial;
      }
      var docs := Deletable(matching);
      if docs == [] {
        return MissingIds, s', rounds, partial;
      }
      if !(Ids(docs) !! deletedIds) {
        return NoProgress, s', rounds, partial;
      }
      var ok, raised, next, done := DeleteRound(b, s', docs);
      if !ok {
        RoundStopped(b, s', docs, done, source, boundary);
        partial := docs[..done];
        return if raised then BackendRaised else NoProgress, next, rounds, partial;
      }
      assert docs[..done] == docs;
      RoundStep(b, s, rounds, docs, source, boundary, s', deleted, deletedIds, universe);
      rounds := rounds + [docs];
      s' := next;
      deleted := deleted + |docs|;
      deletedIds := deletedIds + Ids(docs);
    }
  }

  method DeleteMatchingEntries<S>(b: Backend<S>, s: S, supportsDelete: bool, supportsFiltering: bool,
                                  source: int, boundary: Option<Boundary>, ghost universe: set<string>)
    returns (outcome: DeleteOutcome, s': S, ghost rounds: seq<seq<Document>>, ghost partial: seq<Document>)
    requires FiniteIds(b, s, universe)
    ensures outcome.DeleteUnsupported? <==> !supportsDelete
    ensures outcome.FilteringRequired? <==> supportsDelete && !supportsFiltering
    ensures !supportsDelete || !supportsFiltering ==> s' == s && rounds == [] && partial == []
    ensures supportsDelete && supportsFiltering ==> LoopResult(b, s, source, boundary, outcome, s', rounds, partial)
  {
    rounds, partial, s' := [], [], s;
    if !supportsDelete {
      return DeleteUnsupported, s', rounds, partial;
    }
    if !supportsFiltering {
      return FilteringRequired, s', rounds, partial;
    }
    outcome, s', rounds, partial := DeleteLoop(b, s, source, boundary, universe);
  }

  /** Only documents whose own metadata names the source are ever deleted, also in a round that failed. */
  lemma OnlyMatchesAreDeleted<S>(b: Backend<S>, s: S, source: int, boundary: Option<Boundary>, outcome: DeleteOutcome, s': S,
                                 rounds: seq<seq<Document>>, partial: seq<Document>, d: Document)
    requires LoopResult(b, s, source, boundary, outcome, s', rounds, partial)
    requires d in partial || exists i :: 0 <= i < |rounds| && d in rounds[i]
    ensures HasId(d) && Matches(d, source, boundary)
  {
    if d in partial {
      var now := After(b, s, rounds);
      RoundDocuments(b.fetch(now).value, source, boundary);
      assert partial <= NextRound(b, now, source, boundary);
      assert d in NextRound(b, now, source, boundary);
    } else {
      var i :| 0 <= i < |rounds| && d in rounds[i];
      assert RoundOk(b, s, rounds, i, source, boundary);
      RoundDocuments(b.fetch(After(b, s, rounds[..i])).value, source, boundary);
    }
  }

  /** A match proves the source in its own metadata, and the boundary field by field when one is given. */
  lemma MatchIsExactly(d: Document, source: int, boundary: Option<Boundary>)
    ensures Matches(d, source, boundary) <==>
      && d.metadata.Some? && d.metadata.value.source == Some(source)
      && (boundary.Some? ==>
            && d.metadata.value.scopeKey == Some(boundary.value.scopeKey)
            && d.metadata.value.privacy == Some(boundary.value.privacy)
            && d.metadata.value.revision == Some(boundary.value.revision)
            && boundary.value.privacy in {Public, Shared, Confidential}
            && (exists c :: c in boundary.value.scopeKey && c !in " \t\n\r") && exists c :: c in boundary.value.revision && c !in " \t\n\r")
    ensures HasId(d) <==> exists id :: d.docId == Some(id) && id != ""
  {
    if boundary.Some? {
      BlankIsExactly(boundary.value.scopeKey);
      BlankIsExactly(boundary.value.revision);
    }
  }

  lemma BlankIsExactly(s: string)
    ensures Blank(s) <==> forall c :: c in s ==> c in " \t\n\r"
  {
    assert forall c :: c in " \t\n\r" <==> c == ' ' || c == '\t' || c == '\n' || c == '\r';
  }

  /** Matching and deletable documents keep the order in which the backend shows them. */
  lemma {:induction false} RoundInOrder(docs: seq<Document>, source: int, boundary: Option<Boundary>)
    ensures Subsequence(Matching(docs, source, boundary), docs) && Subsequence(Deletable(docs), docs)
  {
    if docs != [] {
      var init, last := docs[..|docs| - 1], docs[|docs| - 1];
      RoundInOrder(init, source, boundary);
      SubsequenceAppend(Matching(init, source, boundary), init, last);
      SubsequenceAppend(Deletable(init), init, last);
      assert docs == init + [last];
      assert Matching(init, source, boundary) + [] == Matching(init, source, boundary) && Deletable(init) + [] == Deletable(init);
    }
  }

  // A faithful backend.

  /** No two documents share an identifier; any number of documents may lack one. */
  predicate DistinctDocs(s: seq<Document>) {
    forall i, j :: 0 <= i < j < |s| && HasId(s[i]) && HasId(s[j]) ==> IdOf(s[i]) != IdOf(s[j])
  }

  function RemoveId(s: seq<Document>, id: string): seq<Document> {
    if s == [] then [] else if s[0].docId == Some(id) then RemoveId(s[1..], id) else [s[0]] + RemoveId(s[1..], id)
  }

  /**
   The store is a list of documents with distinct identifiers.  A fetch shows stored documents, each identifier
   once, and at least one that matches when there is one; a deletion removes the document with that identifier.
   */
  ghost predicate Faithful(b: Backend<seq<Document>>, source: int, boundary: Option<Boundary>) {
    && (forall s {:trigger b.fetch(s)} :: DistinctDocs(s) && b.fetch(s).Some? ==> Shows(s, b.fetch(s).value, source, boundary))
    && (forall s, id :: b.delete(s, id).0 == RemoveId(s, id))
  }

  ghost predicate Shows(s: seq<Document>, shown: seq<Document>, source: int, boundary: Option<Boundary>) {
    && (forall d :: d in shown ==> d in s)
    && DistinctDocs(shown)
    && ((exists d :: d in s && Matches(d, source, boundary)) ==> exists d :: d in shown && Matches(d, source, boundary))
  }

  lemma {:induction false} RemoveIdFacts(s: seq<Document>, id: string)
    requires DistinctDocs(s)
    ensures DistinctDocs(RemoveId(s, id))
    ensures forall d :: d in RemoveId(s, id) <==> d in s && d.docId != Some(id)
    ensures id != "" ==> |RemoveId(s, id)| == |s| - (if exists d :: d in s && d.docId == Some(id) then 1 else 0)
  {
    if s != [] {
      assert s == [s[0]] + s[1..];
      RemoveIdFacts(s[1..], id);
      forall d | d in s[1..] && HasId(d) && HasId(s[0]) ensures IdOf(d) != IdOf(s[0]) {}
      assert s[0] in s;
      if s[0].docId == Some(id) && id != "" {
        assert !exists d :: d in s[1..] && d.docId == Some(id);
      }
    }
  }

  lemma {:induction false} DeleteAllFacts(b: Backend<seq<Document>>, s: seq<Document>, docs: seq<Document>,
                                          source: int, boundary: Option<Boundary>)
    requires Faithful(b, source, boundary) && DistinctDocs(s) && DistinctDocs(docs)
    requires forall d :: d in docs ==> d in s && HasId(d)
    ensures DistinctDocs(DeleteAll(b, s, docs))
    ensures forall d :: d in DeleteAll(b, s, docs) <==> d in s && IdOf(d) !in Ids(docs)
    ensures |DeleteAll(b, s, docs)| == |s| - |docs|
  {
    if docs != [] {
      var init, last := docs[..|docs| - 1], docs[|docs| - 1];
      assert docs == init + [last];
      DeleteAllFacts(b, s, init, source, boundary);
      var before := DeleteAll(b, s, init);
      RemoveIdFacts(before, IdOf(last));
      forall d | d in init ensures IdOf(d) != IdOf(last) {}
      assert last in docs && HasId(last) && last in before && last.docId == Some(IdOf(last));
      assert Ids(docs) == Ids(init) + {IdOf(last)};
    }
  }

  lemma {:induction false} DeletableKeepsDistinct(docs: seq<Document>, source: int, boundary: Option<Boundary>)
    requires DistinctDocs(docs)
    ensures DistinctDocs(Matching(docs, source, boundary)) && DistinctDocs(Deletable(docs))
  {
    if docs != [] {
      var init, last := docs[..|docs| - 1], docs[|docs| - 1];
      DeletableKeepsDistinct(init, source, boundary);
      MatchingMembers(init, source, boundary);
      forall d | d in init && HasId(d) && HasId(last) ensures IdOf(d) != IdOf(last) {}
    }
  }

  /** One round over a faithful backend removes its documents and keeps what does not match. */
  lemma FaithfulRound(b: Backend<seq<Document>>, before: seq<Document>, docs: seq<Document>, source: int, boundary: Option<Boundary>)
    requires Faithful(b, source, boundary) && DistinctDocs(before) && b.fetch(before).Some?
    requires docs == Deletable(Matching(b.fetch(before).value, source, boundary))
    ensures var left := DeleteAll(b, before, docs);
      && DistinctDocs(left)
      && |left| == |before| - |docs|
      && (forall d :: d in left <==> d in before && IdOf(d) !in Ids(docs))
      && (forall d :: d in before && !(Matches(d, source, boundary) && HasId(d)) ==> d in left)
  {
    var shown := b.fetch(before).value;
    RoundDocuments(shown, source, boundary);
    DeletableKeepsDistinct(shown, source, boundary);
    DeletableKeepsDistinct(Matching(shown, source, boundary), source, boundary);
    DeleteAllFacts(b, before, docs, source, boundary);
    forall d, e | d in before && !(Matches(d, source, boundary) && HasId(d)) && e in docs ensures IdOf(e) != IdOf(d) {
      assert e in before && HasId(e) && e != d;
      if HasId(d) {
        DistinctIds(before, d, e);
      }
    }
  }

  lemma {:induction false} FaithfulRun(b: Backend<seq<Document>>, s: seq<Document>, rounds: seq<seq<Document>>,
                                       source: int, boundary: Option<Boundary>)
    requires Faithful(b, source, boundary) && DistinctDocs(s) && IsRun(b, s, rounds, source, boundary)
    ensures var left := After(b, s, rounds);
      && DistinctDocs(left)
      && |left| == |s| - SumLengths(rounds)
      && (forall d :: d in left ==> d in s && IdOf(d) !in IdsOfRounds(rounds))
      && (forall d :: d in s && !(Matches(d, source, boundary) && HasId(d)) ==> d in left)
  {
    if rounds != [] {
      var init, last := rounds[..|rounds| - 1], rounds[|rounds| - 1];
      RunPrefix(b, s, rounds, source, boundary);
      FaithfulRun(b, s, init, source, boundary);
      FaithfulRound(b, After(b, s, init), last, source, boundary);
    }
  }

  lemma RunPrefix<S>(b: Backend<S>, s: S, rounds: seq<seq<Document>>, source: int, boundary: Option<Boundary>)
    requires IsRun(b, s, rounds, source, boundary) && rounds != []
    ensures IsRun(b, s, rounds[..|rounds| - 1], source, boundary)
    ensures var now := After(b, s, rounds[..|rounds| - 1]);
      b.fetch(now).Some? && rounds[|rounds| - 1] == Deletable(Matching(b.fetch(now).value, source, boundary))
  {
    var init := rounds[..|rounds| - 1];
    assert RoundOk(b, s, rounds, |init|, source, boundary);
    forall i | 0 <= i < |init| ensures RoundOk(b, s, init, i, source, boundary) {
      assert RoundOk(b, s, rounds, i, source, boundary);
      assert init[..i] == rounds[..i];
    }
  }

  lemma DistinctIds(s: seq<Document>, d: Document, e: Document)
    requires DistinctDocs(s) && d in s && e in s && HasId(d) && HasId(e) && d != e
    ensures IdOf(d) != IdOf(e)
  {}

  lemma {:induction false} RemovedWithin(b: Backend<seq<Document>>, s: seq<Document>, docs: seq<Document>,
                                         source: int, boundary: Option<Boundary>)
    requires Faithful(b, source, boundary) && DistinctDocs(s)
    ensures DistinctDocs(DeleteAll(b, s, docs)) && forall d :: d in DeleteAll(b, s, docs) ==> d in s
  {
    if docs != [] {
      RemovedWithin(b, s, docs[..|docs| - 1], source, boundary);
      RemoveIdFacts(DeleteAll(b, s, docs[..|docs| - 1]), IdOf(docs[|docs| - 1]));
    }
  }

  /** A faithful backend only ever shows identifiers that its store has, so the loop ends on it. */
  lemma FaithfulIsFinite(b: Backend<seq<Document>>, s: seq<Document>, source: int, boundary: Option<Boundary>)
    requires Faithful(b, source, boundary) && DistinctDocs(s)
    ensures FiniteIds(b, s, Ids(s))
  {
    forall docs: seq<Document> ensures ShownWithin(b, DeleteAll(b, s, docs), Ids(s)) {
      RemovedWithin(b, s, docs, source, boundary);
    }
  }

  /** No fetch raises and every deletion is answered as done. */
  ghost predicate Answers(b: Backend<seq<Document>>) {
    && (forall s {:trigger b.fetch(s)} :: b.fetch(s).Some?)
    && (forall s, id :: b.delete(s, id).1 == Deleted)
  }

  const BATCH := 200

  /** The store itself: a fetch filters by the metadata and shows the first batch, a deletion goes by identifier. */
  function PlainStore(source: int, boundary: Option<Boundary>): Backend<seq<Document>> {
    Backend(s => Some(FirstBatch(Matching(s, source, boundary))), (s, id) => (RemoveId(s, id), Deleted))
  }

  function FirstBatch(s: seq<Document>): seq<Document> { if |s| <= BATCH then s else s[..BATCH] }

  /** The plain filtering store is faithful and always answers. */
  lemma PlainStoreIsFaithful(source: int, boundary: Option<Boundary>)
    ensures Faithful(PlainStore(source, boundary), source, boundary) && Answers(PlainStore(source, boundary))
  {
    forall s: seq<Document> | DistinctDocs(s) ensures Shows(s, FirstBatch(Matching(s, source, boundary)), source, boundary) {
      ShownByPlainStore(s, source, boundary);
    }
  }

  lemma ShownByPlainStore(s: seq<Document>, source: int, boundary: Option<Boundary>)
    requires DistinctDocs(s)
    ensures Shows(s, FirstBatch(Matching(s, source, boundary)), source, boundary)
  {
    var m := Matching(s, source, boundary);
    MatchingMembers(s, source, boundary);
    DeletableKeepsDistinct(s, source, boundary);
    if m != [] {
      assert m[0] in m && FirstBatch(m)[0] == m[0];
      assert m[0] in FirstBatch(m);
    }
  }

  /**
   Over a faithful backend with unique identifiers, a normal return leaves exactly the documents that do
   not match, and counts exactly the documents removed.
   */
  lemma NormalReturnIsComplete(b: Backend<seq<Document>>, s: seq<Document>, source: int, boundary: Option<Boundary>,
                               outcome: DeleteOutcome, s': seq<Document>, rounds: seq<seq<Document>>, partial: seq<Document>)
    requires Faithful(b, source, boundary) && DistinctDocs(s) && outcome.Count?
    requires LoopResult(b, s, source, boundary, outcome, s', rounds, partial)
    ensures forall d :: d in s' <==> d in s && !Matches(d, source, boundary)
    ensures DistinctDocs(s') && outcome.n == |s| - |s'|
  {
    FaithfulRun(b, s, rounds, source, boundary);
    var shown := b.fetch(s').value;
    MatchingMembers(shown, source, boundary);
    assert !exists e :: e in shown && Matches(e, source, boundary);
    assert !exists e :: e in s' && Matches(e, source, boundary);
  }

  lemma NeverStopped(b: Backend<seq<Document>>, now: seq<Document>, partial: seq<Document>, reply: DeleteReply,
                     source: int, boundary: Option<Boundary>)
    requires Answers(b) && reply != Deleted
    ensures !StoppedBy(b, now, partial, reply, source, boundary)
  {}

  /**
   Over a faithful backend that always answers, the loop returns normally exactly when every matching
   document has an identifier, and otherwise reports the missing identifiers.
   */
  lemma ReturnsNormallyIff(b: Backend<seq<Document>>, s: seq<Document>, source: int, boundary: Option<Boundary>,
                           outcome: DeleteOutcome, s': seq<Document>, rounds: seq<seq<Document>>, partial: seq<Document>)
    requires Faithful(b, source, boundary) && DistinctDocs(s) && Answers(b)
    requires LoopResult(b, s, source, boundary, outcome, s', rounds, partial)
    ensures outcome.Count? || outcome.MissingIds?
    ensures outcome.Count? <==> forall d :: d in s && Matches(d, source, boundary) ==> HasId(d)
  {
    var now := After(b, s, rounds);
    FaithfulRun(b, s, rounds, source, boundary);
    RoundDocuments(b.fetch(now).value, source, boundary);
    MatchingMembers(b.fetch(now).value, source, boundary);
    forall d | d in NextRound(b, now, source, boundary) ensures IdOf(d) !in IdsOfRounds(rounds) {}
    NeverStopped(b, now, partial, ReturnedFalse, source, boundary);
    NeverStopped(b, now, partial, DeleteRaised, source, boundary);
    if outcome.Count? {
      NormalReturnIsComplete(b, s, source, boundary, outcome, s', rounds, partial);
    } else if outcome.MissingIds? {
      var m := Matching(b.fetch(now).value, source, boundary);
      assert m[0] in m && m[0] in s && !HasId(m[0]);
    }
  }

  /** Deleting the entries of a memory over such a backend, whether or not a boundary is given. */
  method DeleteEntriesForMemory(b: Backend<seq<Document>>, s: seq<Document>, source: int, boundary: Option<Boundary>)
    returns (outcome: DeleteOutcome, s': seq<Document>)
    requires Faithful(b, source, boundary) && DistinctDocs(s) && Answers(b)
    ensures (forall d :: d in s && Matches(d, source, boundary) ==> HasId(d)) ==>
      && |s'| <= |s| && outcome == Count(|s| - |s'|)
      && forall d :: d in s' <==> d in s && !Matches(d, source, boundary)
    ensures (exists d :: d in s && Matches(d, source, boundary) && !HasId(d)) ==> outcome == MissingIds
  {
    FaithfulIsFinite(b, s, source, boundary);
    ghost var rounds, partial;
    outcome, s', rounds, partial := DeleteMatchingEntries(b, s, true, true, source, boundary, Ids(s));
    ReturnsNormallyIff(b, s, source, boundary, outcome, s', rounds, partial);
    if outcome.Count? {
      NormalReturnIsComplete(b, s, source, boundary, outcome, s', rounds, partial);
    }
  }

  // Inserting.

  datatype Entry = Entry(content: string, metadata: map<string, string>)

  /** What the backend returns for one identifier. */
  datatype RawId = IntId(id: int) | BoolId | Unreadable

  datatype InsertReply = Returned(ids: seq<RawId>) | NotAList | InsertRaised

  datatype Inserter<!S> = Inserter(insert: (S, seq<Entry>, int) -> (S, InsertReply))

  /** A configured batch size; anything that is not a number falls back to the default. */
  datatype Size = Number(n: int) | NotANumber

  datatype InsertOutcome = Inserted(ids: seq<int>) | BoundaryMismatch | BatchUnsupported | IdCountMismatch | InvalidIds | Failed

  /** One call of the backend. */
  datatype Call = Call(chunk: seq<Entry>, requestSize: int)

  function PrivacyText(p: Privacy): string {
    match p case Public => "public" case Shared => "shared" case Confidential => "confidential" case OtherPrivacy => "other"
  }

  function Params(b: Boundary): map<string, string> {
    map["scope_key" := b.scopeKey, "privacy_level" := PrivacyText(b.privacy), "revision_token" := b.revision]
  }

  /** The entry does not contradict the boundary it is inserted under. */
  predicate Agrees(e: Entry, b: Boundary) {
    forall k :: k in Params(b) && k in e.metadata ==> e.metadata[k] == Params(b)[k]
  }

  function Normalize(e: Entry, b: Boundary): Entry { e.(metadata := e.metadata + Params(b)) }

  function Limit(size: Size): int {
    var n := if size.Number? then size.n else DEFAULT_INSERT_BATCH_SIZE;
    if n < 1 then 1 else if n > MAX_INSERT_BATCH_SIZE then MAX_INSERT_BATCH_SIZE else n
  }

  function RequestSize(n: int): int { if n < MAX_EMBEDDING_REQUEST_ITEMS then n else MAX_EMBEDDING_REQUEST_ITEMS }

  function StoreAfter<S>(b: Inserter<S>, s: S, calls: seq<Call>): S {
    if calls == [] then s
    else b.insert(StoreAfter(b, s, calls[..|calls| - 1]), calls[|calls| - 1].chunk, calls[|calls| - 1].requestSize).0
  }

  function ReplyTo<S>(b: Inserter<S>, s: S, calls: seq<Call>, c: nat): InsertReply
    requires c < |calls|
  {
    b.insert(StoreAfter(b, s, calls[..c]), calls[c].chunk, calls[c].requestSize).1
  }

  /** Call `c` inserts the `c`-th run of `limit` entries. */
  ghost predicate CallOk(calls: seq<Call>, c: nat, normalized: seq<Entry>, limit: nat)
    requires c < |calls|
  {
    && c * limit < |normalized|
    && calls[c].chunk == Chunk(normalized, limit, c)
    && calls[c].requestSize == RequestSize(|calls[c].chunk|)
  }

  /** The reply to call `c` gave the identifiers of exactly its entries, in their positions. */
  ghost predicate Positions<S>(b: Inserter<S>, s: S, calls: seq<Call>, c: nat, ids: seq<int>, limit: nat)
    requires c < |calls|
  {
    PositionsFrom(ReplyTo(b, s, calls, c), |calls[c].chunk|, ids, c * limit)
  }

  /** The reply is a list of `n` identifiers, and they are those of `ids` from `start` on. */
  ghost predicate PositionsFrom(reply: InsertReply, n: nat, ids: seq<int>, start: nat) {
    reply.Returned? && |reply.ids| == n && SamePlaces(reply.ids, ids, start)
  }

  ghost predicate SamePlaces(raw: seq<RawId>, ids: seq<int>, start: nat) {
    start + |raw| <= |ids| && forall j :: 0 <= j < |raw| ==> raw[j] == IntId(ids[start + j])
  }

  /** A list of `n` integers. */
  predicate GoodReply(reply: InsertReply, n: nat) {
    reply.Returned? && |reply.ids| == n && forall i :: 0 <= i < n ==> reply.ids[i].IntId?
  }

  /** The last reply is the first bad one, and bad in the way the outcome says. */
  ghost predicate InsertExplained<S>(b: Inserter<S>, s: S, calls: seq<Call>, outcome: InsertOutcome) {
    && calls != []
    && (forall c :: 0 <= c < |calls| - 1 ==> GoodReply(ReplyTo(b, s, calls, c), |calls[c].chunk|))
    && Explains(ReplyTo(b, s, calls, |calls| - 1), |calls[|calls| - 1].chunk|, outcome)
  }

  predicate Explains(reply: InsertReply, n: nat, outcome: InsertOutcome) {
    match outcome
    case Failed => reply.InsertRaised?
    case IdCountMismatch => reply.NotAList? || (reply.Returned? && |reply.ids| != n)
    case InvalidIds => reply.Returned? && |reply.ids| == n && exists i :: 0 <= i < n && !reply.ids[i].IntId?
    case _ => false
  }

  /** A reply is a list of as many integers as entries, or exactly one error says what it is instead. */
  lemma GoodOrExplained(reply: InsertReply, n: nat, outcome: InsertOutcome)
    ensures !GoodReply(reply, n) <==> exists o :: Explains(reply, n, o)
    ensures Explains(reply, n, outcome) ==>
      outcome == if reply.InsertRaised? then Failed
                 else if reply.Returned? && |reply.ids| == n then InvalidIds
                 else IdCountMismatch
  {
    if !GoodReply(reply, n) {
      var o := if reply.InsertRaised? then Failed else if reply.Returned? && |reply.ids| == n then InvalidIds else IdCountMismatch;
      assert Explains(reply, n, o);
    }
  }

  lemma ExplainedByLast<S>(b: Inserter<S>, s: S, before: seq<Call>, last: Call, ids: seq<int>, limit: nat, outcome: InsertOutcome)
    requires forall c :: 0 <= c < |before| ==> Positions(b, s, before, c, ids, limit)
    requires Explains(b.insert(StoreAfter(b, s, before), last.chunk, last.requestSize).1, |last.chunk|, outcome)
    ensures InsertExplained(b, s, before + [last], outcome)
  {
    var all := before + [last];
    assert all[..|before|] == before;
    forall c | 0 <= c < |before| ensures GoodReply(ReplyTo(b, s, all, c), |all[c].chunk|) {
      assert all[..c] == before[..c] && all[c] == before[c];
      assert Positions(b, s, before, c, ids, limit);
    }
  }

  lemma SnocCalls<S>(b: Inserter<S>, s: S, calls: seq<Call>, last: Call, ids: seq<int>, more: seq<int>, limit: nat)
    requires forall c :: 0 <= c < |calls| ==> Positions(b, s, calls, c, ids, limit)
    ensures forall c :: 0 <= c < |calls| ==> Positions(b, s, calls + [last], c, ids + more, limit)
    ensures ReplyTo(b, s, calls + [last], |calls|) == b.insert(StoreAfter(b, s, calls), last.chunk, last.requestSize).1
    ensures StoreAfter(b, s, calls + [last]) == b.insert(StoreAfter(b, s, calls), last.chunk, last.requestSize).0
  {
    var all := calls + [last];
    assert all[..|calls|] == calls;
    forall c | 0 <= c < |calls| ensures Positions(b, s, all, c, ids + more, limit) {
      assert all[..c] == calls[..c] && all[c] == calls[c];
      assert Positions(b, s, calls, c, ids, limit);
    }
  }

  /** Reads the identifiers of a reply; `None` when one of them is not an identifier. */
  method ReadIds(raw: seq<RawId>) returns (ids: Option<seq<int>>)
    ensures ids.Some? <==> forall i :: 0 <= i < |raw| ==> raw[i].IntId?
    ensures ids.Some? ==> |ids.value| == |raw| && forall i :: 0 <= i < |raw| ==> raw[i] == IntId(ids.value[i])
  {
    var read: seq<int> := [];
    for i := 0 to |raw|
      invariant |read| == i && forall j :: 0 <= j < i ==> raw[j] == IntId(read[j])
    {
      if !raw[i].IntId? {
        return None;
      }
      read := read + [raw[i].id];
    }
    ids := Some(read);
  }

  function NormalizeAll(entries: seq<Entry>, b: Boundary): (r: seq<Entry>)
    ensures |r| == |entries| && forall i :: 0 <= i < |r| ==> r[i] == Normalize(entries[i], b)
  {
    seq(|entries|, i requires 0 <= i < |entries| => Normalize(entries[i], b))
  }

  /** Checks every entry against the boundary before any of them is inserted. */
  method ValidateAll(entries: seq<Entry>, boundary: Boundary) returns (ok: bool, normalized: seq<Entry>)
    ensures ok <==> forall e :: e in entries ==> Agrees(e, boundary)
    ensures ok ==> normalized == NormalizeAll(entries, boundary)
  {
    normalized := [];
    for i := 0 to |entries|
      invariant |normalized| == i
      invariant forall j :: 0 <= j < i ==> Agrees(entries[j], boundary) && normalized[j] == Normalize(entries[j], boundary)
    {
      if !Agrees(entries[i], boundary) {
        return false, normalized;
      }
      normalized := normalized + [Normalize(entries[i], boundary)];
    }
    ok := true;
  }

  /** The chunk of call `c`. */
  function Chunk(normalized: seq<Entry>, limit: nat, c: nat): seq<Entry>
    requires c * limit <= |normalized|
  {
    normalized[c * limit..if c * limit + limit < |normalized| then c * limit + limit else |normalized|]
  }

  lemma SnocCallOk(calls: seq<Call>, last: Call, normalized: seq<Entry>, limit: nat)
    requires forall c :: 0 <= c < |calls| ==> CallOk(calls, c, normalized, limit)
    requires |calls| * limit < |normalized| && last == Call(Chunk(normalized, limit, |calls|), RequestSize(|Chunk(normalized, limit, |calls|)|))
    ensures forall c :: 0 <= c <= |calls| ==> CallOk(calls + [last], c, normalized, limit)
  {
    forall c | 0 <= c < |calls| ensures CallOk(calls + [last], c, normalized, limit) {
      assert CallOk(calls, c, normalized, limit);
    }
  }

  method InsertChunks<S>(b: Inserter<S>, s: S, normalized: seq<Entry>, limit: nat)
    returns (outcome: InsertOutcome, s': S, ghost calls: seq<Call>)
    requires limit > 0
    ensures s' == StoreAfter(b, s, calls)
    ensures forall c :: 0 <= c < |calls| ==> CallOk(calls, c, normalized, limit)
    ensures outcome.Inserted? ==>
      && |outcome.ids| == |normalized| <= |calls| * limit
      && forall c :: 0 <= c < |calls| ==> Positions(b, s, calls, c, outcome.ids, limit)
    ensures !outcome.Inserted? ==> InsertExplained(b, s, calls, outcome)
  {
    calls, s' := [], s;
    var ids: seq<int> := [];
    var round: nat := 0;
    while round * limit < |normalized|
      invariant round == |calls| && |ids| == (if round * limit < |normalized| then round * limit else |normalized|)
      invariant s' == StoreAfter(b, s, calls)
      invariant forall c :: 0 <= c < |calls| ==> CallOk(calls, c, normalized, limit)
      invariant forall c :: 0 <= c < |calls| ==> Positions(b, s, calls, c, ids, limit)
      decreases |normalized| - round * limit
    {
      var chunk := Chunk(normalized, limit, round);
      var (next, reply) := b.insert(s', chunk, RequestSize(|chunk|));
      ghost var before, call := calls, Call(chunk, RequestSize(|chunk|));
      SnocCallOk(calls, call, normalized, limit);
      SnocCalls(b, s, calls, call, ids, [], limit);
      assert (round + 1) * limit == round * limit + limit;
      calls := calls + [call];
      s' := next;
      if reply.InsertRaised? {
        ExplainedByLast(b, s, before, call, ids, limit, Failed);
        return Failed, s', calls;
      }
      if reply.NotAList? || |reply.ids| != |chunk| {
        ExplainedByLast(b, s, before, call, ids, limit, IdCountMismatch);
        return IdCountMismatch, s', calls;
      }
      var read := ReadIds(reply.ids);
      if read.None? {
        ExplainedByLast(b, s, before, call, ids, limit, InvalidIds);
        return InvalidIds, s', calls;
      }
      SnocCalls(b, s, before, call, ids, read.value, limit);
      ids := ids + read.value;
      round := round + 1;
    }
    outcome := Inserted(ids);
  }

  /**
   Inserts the entries in chunks.  On success identifier `i` is the one the backend returned for entry
   `i`; nothing is inserted unless every entry agrees with the boundary.
   */
  method AddEntries<S>(b: Inserter<S>, s: S, entries: seq<Entry>, boundary: Boundary, supportsBatch: bool, size: Size)
    returns (outcome: InsertOutcome, s': S, ghost calls: seq<Call>)
    ensures s' == StoreAfter(b, s, calls)
    ensures outcome.BoundaryMismatch? <==> exists e :: e in entries && !Agrees(e, boundary)
    ensures outcome.BoundaryMismatch? || outcome.BatchUnsupported? || entries == [] ==> calls == []
    ensures outcome.BatchUnsupported? <==> !outcome.BoundaryMismatch? && entries != [] && !supportsBatch
    ensures forall c :: 0 <= c < |calls| ==> CallOk(calls, c, NormalizeAll(entries, boundary), Limit(size))
    ensures outcome.Inserted? ==>
      && |outcome.ids| == |entries| <= |calls| * Limit(size)
      && forall c :: 0 <= c < |calls| ==> Positions(b, s, calls, c, outcome.ids, Limit(size))
    ensures outcome.Inserted? || outcome.BoundaryMismatch? || outcome.BatchUnsupported? || InsertExplained(b, s, calls, outcome)
  {
    calls, s' := [], s;
    var ok, normalized := ValidateAll(entries, boundary);
    if !ok {
      return BoundaryMismatch, s', calls;
    }
    if normalized == [] {
      return Inserted([]), s', calls;
    }
    if !supportsBatch {
      return BatchUnsupported, s', calls;
    }
    outcome, s', calls := InsertChunks(b, s, normalized, Limit(size));
  }

  /** Every chunk has at most 200 entries, and the request size never exceeds the chunk or ten. */
  lemma ChunksAreSmall(calls: seq<Call>, c: nat, normalized: seq<Entry>, size: Size)
    requires c < |calls| && CallOk(calls, c, normalized, Limit(size))
    ensures 1 <= |calls[c].chunk| <= Limit(size) <= 200
    ensures 1 <= calls[c].requestSize <= 10 && calls[c].requestSize <= |calls[c].chunk|
  {}

  /** What is stored with an entry: its own metadata with the boundary's three fields, which it may not contradict. */
  lemma EntryIsExactly(e: Entry, b: Boundary, key: string)
    ensures var n := Normalize(e, b);
      var level := if b.privacy == Public then "public" else if b.privacy == Shared then "shared" else "confidential";
      && n.content == e.content
      && "scope_key" in n.metadata && n.metadata["scope_key"] == b.scopeKey
      && "revision_token" in n.metadata && n.metadata["revision_token"] == b.revision
      && "privacy_level" in n.metadata && (b.privacy != OtherPrivacy ==> n.metadata["privacy_level"] == level)
      && (key !in {"scope_key", "revision_token", "privacy_level"} ==>
            (key in n.metadata <==> key in e.metadata) && (key in e.metadata ==> n.metadata[key] == e.metadata[key]))
      && (Agrees(e, b) <==>
            && ("scope_key" in e.metadata ==> e.metadata["scope_key"] == b.scopeKey)
            && ("revision_token" in e.metadata ==> e.metadata["revision_token"] == b.revision)
            && ("privacy_level" in e.metadata ==> e.metadata["privacy_level"] == n.metadata["privacy_level"]))
  {
    KeysDiffer();
    assert Params(b).Keys == {"scope_key", "revision_token", "privacy_level"};
  }

  lemma KeysDiffer()
    ensures "scope_key" != "revision_token" && "scope_key" != "privacy_level" && "revision_token" != "privacy_level"
  {
    assert |"scope_key"| == 9 && |"revision_token"| == 14 && |"privacy_level"| == 13;
  }

  /** A configured size is kept between 1 and 200, and anything else is 32. */
  lemma LimitIsExactly(size: Size)
    ensures size.NotANumber? ==> Limit(size) == 32
    ensures size.Number? ==> Limit(size) == if size.n <= 1 then 1 else if size.n >= 200 then 200 else size.n
  {}

  /** The entries of the calls, in order. */
  function Joined(calls: seq<Call>): seq<Entry> {
    if calls == [] then [] else Joined(calls[..|calls| - 1]) + calls[|calls| - 1].chunk
  }

  /** The calls insert the entries from the first on, each once and in order, until all are inserted or a call fails. */
  lemma {:induction false} ChunksCover(calls: seq<Call>, normalized: seq<Entry>, limit: nat)
    requires limit > 0 && forall c :: 0 <= c < |calls| ==> CallOk(calls, c, normalized, limit)
    ensures Joined(calls) == if |calls| * limit < |normalized| then normalized[..|calls| * limit] else normalized
  {
    if calls == [] {
      assert |calls| * limit == 0;
      assert |normalized| > 0 ==> normalized[..0] == [];
    } else {
      var init, n := calls[..|calls| - 1], |calls| - 1;
      forall c | 0 <= c < n ensures CallOk(init, c, normalized, limit) {
        assert CallOk(calls, c, normalized, limit);
      }
      ChunksCover(init, normalized, limit);
      assert CallOk(calls, n, normalized, limit);
      assert |calls| * limit == n * limit + limit;
      TakeMore(normalized, n * limit, if n * limit + limit < |normalized| then n * limit + limit else |normalized|);
    }
  }

  lemma TakeMore(s: seq<Entry>, i: nat, j: nat)
    requires i <= j <= |s|
    ensures s[..i] + s[i..j] == s[..j]
    ensures s[..|s|] == s
  {}

  /** A call names its chunk's size as the request size, ten at most. */
  lemma RequestIsExactly(calls: seq<Call>, c: nat, normalized: seq<Entry>, limit: nat)
    requires c < |calls| && CallOk(calls, c, normalized, limit)
    ensures calls[c].requestSize == if |calls[c].chunk| < 10 then |calls[c].chunk| else 10
  {}
}
