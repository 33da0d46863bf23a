/**
 Adding, updating and deleting memories over three stores: the full-text rows, the vectors and the
 documents table.

 Every call into a store is a parameter saying how it ends.  A statement may raise, or be cancelled,
 before or after its commit took; a cancellation is not caught by the handlers for exceptions.
 Texts and tokenized contents are opaque, except that the empty text counts as missing.
 */
module MemoryLifecycle {
  import opened Options

  type Text = string

  datatype Row = Row(docId: int, content: Text)

  /** `vectors` holds the text whose embedding is stored. */
  datatype State = State(rows: seq<Row>, vectors: map<int, Text>, documents: map<int, Text>)

  /** How a statement and its commit end; `kept` says whether the change took all the same. */
  datatype Sql = Committed | Raised(kept: bool) | Cancelled(kept: bool)

  predicate Took(o: Sql) { o.Committed? || o.kept }

  datatype Reply = True | False | CancelledError

  function ReplyOf(o: Sql): Reply { match o case Committed => True case Raised(_) => False case Cancelled(_) => CancelledError }

  // The full-text rows.

  function RowsOf(rows: seq<Row>, id: int): seq<Row> {
    if rows == [] then []
    else if rows[0].docId == id then [rows[0]] + RowsOf(rows[1..], id)
    else RowsOf(rows[1..], id)
  }

  function Without(rows: seq<Row>, id: int): seq<Row> {
    if rows == [] then []
    else if rows[0].docId == id then Without(rows[1..], id)
    else [rows[0]] + Without(rows[1..], id)
  }

  function Removed(rows: seq<Row>, id: int, o: Sql): seq<Row> { if Took(o) then Without(rows, id) else rows }

  function Rewritten(rows: seq<Row>, id: int, content: Text, o: Sql): seq<Row> {
    if Took(o) then Without(rows, id) + [Row(id, content)] else rows
  }

  class Bm25Retriever {
    const tokenize: Text -> Text
    var rows: seq<Row>
    var documents: map<int, Text>

    constructor (tokenize: Text -> Text)
      ensures this.tokenize == tokenize && rows == [] && documents == map[]
    {
      this.tokenize := tokenize;
      rows, documents := [], map[];
    }

    method AddDocument(id: int, text: Text, o: Sql) returns (r: Reply)
      modifies this`rows
      ensures rows == if Took(o) then old(rows) + [Row(id, tokenize(text))] else old(rows)
      ensures r == ReplyOf(o)
    {
      if Took(o) {
        rows := rows + [Row(id, tokenize(text))];
      }
      r := ReplyOf(o);
    }

    method DeleteDocument(id: int, o: Sql) returns (r: Reply)
      modifies this`rows
      ensures rows == Removed(old(rows), id, o) && r == ReplyOf(o)
    {
      if Took(o) {
        rows := Without(rows, id);
      }
      r := ReplyOf(o);
    }

    method UpdateDocument(id: int, text: Text, o: Sql) returns (r: Reply)
      modifies this`rows
      ensures rows == Rewritten(old(rows), id, tokenize(text), o) && r == ReplyOf(o)
    {
      if Took(o) {
        rows := Without(rows, id);
        rows := rows + [Row(id, tokenize(text))];
      }
      r := ReplyOf(o);
    }
  }

  // The operations on values.

  /** How reading the backup ends; an exception may come before or after the row was read. */
  datatype Backup = Read | BackupRaised(got: bool) | BackupCancelled

  /**
   How the vector layer ends a deletion; a failed call changes nothing, a cancelled one may.  It looks the
   document up for its UUID first, so it can only delete when the row is there or the UUID is `cached`.
   */
  datatype VectorReply = VectorDeleted(rowToo: bool, cached: bool) | VectorFalse | VectorRaised | VectorCancelled(kept: bool)

  datatype DeleteEnv = DeleteEnv(backup: Backup, fts: Sql, vector: VectorReply, rollback: Sql, table: Sql)

  function BackupText(s: State, id: int, b: Backup): Option<Text> {
    if id in s.documents && (b.Read? || (b.BackupRaised? && b.got)) then Some(s.documents[id]) else None
  }

  /** Rebuilding the row from the backup, which is skipped without a text. */
  function RolledBack(tok: Text -> Text, s: State, id: int, backup: Option<Text>, o: Sql): (State, Reply) {
    if backup.None? || backup.value == "" then (s, False)
    else (s.(rows := Rewritten(s.rows, id, tok(backup.value), o)), if o.Cancelled? then CancelledError else False)
  }

  function WithoutVector(s: State, id: int, rowToo: bool): State {
    s.(vectors := s.vectors - {id}, documents := if rowToo then s.documents - {id} else s.documents)
  }

  function TableCleared(s: State, id: int, o: Sql): (State, Reply) {
    (if Took(o) then s.(documents := s.documents - {id}) else s, if o.Cancelled? then CancelledError else True)
  }

  /** The vector layer answers true. */
  predicate VectorSucceeds(s: State, id: int, v: VectorReply) {
    v.VectorDeleted? && (id in s.documents || v.cached)
  }

  function Deleted(tok: Text -> Text, s: State, id: int, e: DeleteEnv): (State, Reply) {
    if e.backup.BackupCancelled? then (s, CancelledError)
    else
      var backup := BackupText(s, id, e.backup);
      var s1 := s.(rows := Removed(s.rows, id, e.fts));
      if !e.fts.Committed? then (s1, ReplyOf(e.fts))
      else if e.vector.VectorCancelled? then (if e.vector.kept then WithoutVector(s1, id, false) else s1, CancelledError)
      else if VectorSucceeds(s, id, e.vector) then TableCleared(WithoutVector(s1, id, e.vector.rowToo), id, e.table)
      else RolledBack(tok, s1, id, backup, e.rollback)
  }

  /** How the vector store ends an insert; on success it also writes the document, under a fresh key. */
  datatype InsertReply = AddedAs(id: int) | InsertRaised

  datatype AddResult = Added(id: int) | AddRaised

  function AddedTo(tok: Text -> Text, s: State, text: Text, i: InsertReply, o: Sql): (State, AddResult) {
    if i.InsertRaised? then (s, AddRaised)
    else
      var s1 := s.(vectors := s.vectors[i.id := text], documents := s.documents[i.id := text]);
      if Took(o) then (s1.(rows := s.rows + [Row(i.id, tok(text))]), if o.Committed? then Added(i.id) else AddRaised)
      else (s1, AddRaised)
  }

  /** What the refresh after a committed update leaves in the vector store; it deletes and then inserts. */
  datatype VectorLeft = Untouched | Gone | Renewed

  /** How the refresh ends; short of a cancellation its failure is only logged. */
  datatype Refresh = Refresh(left: VectorLeft, cancelled: bool)

  /** A refusal, such as another revision, is a canonical write that raises without effect. */
  datatype UpdateEnv = UpdateEnv(canonical: Sql, refresh: Refresh, fts: Sql)

  predicate Blank(text: Text) { forall c :: c in text ==> c in " \t\n\r" }

  function Refreshed(s: State, id: int, text: Text, left: VectorLeft): State {
    match left
    case Untouched => s
    case Gone => s.(vectors := s.vectors - {id})
    case Renewed => s.(vectors := s.vectors[id := text])
  }

  /** Replacing the text of a stored document, refreshing its vector and then its row. */
  function Updated(tok: Text -> Text, s: State, id: int, text: Text, e: UpdateEnv): (State, Reply) {
    if Blank(text) then (s, False)
    else if id !in s.documents then (s, if e.canonical.Cancelled? then CancelledError else False)
    else
      var s1 := if Took(e.canonical) then s.(documents := s.documents[id := text]) else s;
      if !e.canonical.Committed? then (s1, ReplyOf(e.canonical))
      else
        var s2 := Refreshed(s1, id, text, e.refresh.left);
        if e.refresh.cancelled then (s2, CancelledError)
        else (s2.(rows := Rewritten(s.rows, id, tok(text), e.fts)), if e.fts.Cancelled? then CancelledError else True)
  }

  class VectorRetriever {
    var entries: map<int, Text>

    constructor ()
      ensures entries == map[]
    {
      entries := map[];
    }

    method Refresh(id: int, text: Text, left: VectorLeft)
      modifies this
      ensures entries == (match left
        case Untouched => old(entries)
        case Gone => old(entries) - {id}
        case Renewed => old(entries)[id := text])
    {
      if !left.Untouched? {
        entries := entries - {id};
      }
      if left.Renewed? {
        entries := entries[id := text];
      }
    }
  }

  class MemoryLifecycleManager {
    const bm25: Bm25Retriever
    const vector: VectorRetriever

    constructor (bm25: Bm25Retriever, vector: VectorRetriever)
      ensures this.bm25 == bm25 && this.vector == vector
    {
      this.bm25, this.vector := bm25, vector;
    }

    ghost function Stores(): State
      reads bm25, vector
    {
      State(bm25.rows, vector.entries, bm25.documents)
    }

    method AddMemory(text: Text, i: InsertReply, o: Sql) returns (r: AddResult)
      modifies bm25, vector
      ensures (Stores(), r) == AddedTo(bm25.tokenize, old(Stores()), text, i, o)
    {
      if i.InsertRaised? {
        return AddRaised;
      }
      vector.entries := vector.entries[i.id := text];
      bm25.documents := bm25.documents[i.id := text];
      var reply := bm25.AddDocument(i.id, text, o);
      r := if reply.True? then Added(i.id) else AddRaised;
    }

    method UpdateContent(id: int, text: Text, e: UpdateEnv) returns (r: Reply)
      modifies bm25, vector
      ensures (Stores(), r) == Updated(bm25.tokenize, old(Stores()), id, text, e)
    {
      if Blank(text) {
        return False;
      }
      if id !in bm25.documents {
        return if e.canonical.Cancelled? then CancelledError else False;
      }
      if Took(e.canonical) {
        bm25.documents := bm25.documents[id := text];
      }
      if !e.canonical.Committed? {
        return ReplyOf(e.canonical);
      }
      vector.Refresh(id, text, e.refresh.left);
      if e.refresh.cancelled {
        return CancelledError;
      }
      var reply := bm25.UpdateDocument(id, text, e.fts);
      r := if reply.CancelledError? then CancelledError else True;
    }

    method RollbackBm25Delete(id: int, content: Option<Text>, o: Sql) returns (r: Reply)
      modifies bm25`rows
      ensures (Stores(), r) == RolledBack(bm25.tokenize, old(Stores()), id, content, o)
    {
      if content.None? || content.value == "" {
        return False;
      }
      var reply := bm25.UpdateDocument(id, content.value, o);
      r := if reply.CancelledError? then CancelledError else False;
    }

    method DeleteMemory(id: int, e: DeleteEnv) returns (r: Reply)
      modifies bm25, vector
      ensures (Stores(), r) == Deleted(bm25.tokenize, old(Stores()), id, e)
    {
      if e.backup.BackupCancelled? {
        return CancelledError;
      }
      var backup := None;
      if id in bm25.documents && (e.backup.Read? || e.backup.got) {
        backup := Some(bm25.documents[id]);
      }
      var deleted := bm25.DeleteDocument(id, e.fts);
      if !deleted.True? {
        return deleted;
      }
      if e.vector.VectorCancelled? {
        if e.vector.kept {
          vector.entries := vector.entries - {id};
        }
        return CancelledError;
      }
      if !e.vector.VectorDeleted? || !(id in bm25.documents || e.vector.cached) {
        r := RollbackBm25Delete(id, backup, e.rollback);
        return;
      }
      vector.entries := vector.entries - {id};
      if e.vector.rowToo {
        bm25.documents := bm25.documents - {id};
      }
      if Took(e.table) {
        bm25.documents := bm25.documents - {id};
      }
      r := if e.table.Cancelled? then CancelledError else True;
    }
  }

  // Rows.

  lemma {:induction false} WithoutRows(rows: seq<Row>, id: int, other: int)
    ensures RowsOf(Without(rows, id), other) == if other == id then [] else RowsOf(rows, other)
  {
    if rows != [] {
      WithoutRows(rows[1..], id, other);
      if rows[0].docId != id {
        assert Without(rows, id)[1..] == Without(rows[1..], id);
      }
    }
  }

  lemma {:induction false} AppendedRows(rows: seq<Row>, r: Row, other: int)
    ensures RowsOf(rows + [r], other) == RowsOf(rows, other) + if other == r.docId then [r] else []
  {
    if rows != [] {
      assert (rows + [r])[1..] == rows[1..] + [r];
      AppendedRows(rows[1..], r, other);
    }
  }

  lemma RemovedRows(rows: seq<Row>, id: int, o: Sql, other: int)
    ensures RowsOf(Removed(rows, id, o), other) == if other == id && Took(o) then [] else RowsOf(rows, other)
  {
    WithoutRows(rows, id, other);
  }

  lemma RewrittenRows(rows: seq<Row>, id: int, content: Text, o: Sql, other: int)
    ensures RowsOf(Rewritten(rows, id, content, o), other) == if other == id && Took(o) then [Row(id, content)] else RowsOf(rows, other)
  {
    WithoutRows(rows, id, other);
    AppendedRows(Without(rows, id), Row(id, content), other);
  }

  // What a deletion leaves.

  /** The vector layer deletes, after a full-text deletion that was committed. */
  predicate VectorGone(s: State, id: int, e: DeleteEnv) {
    && !e.backup.BackupCancelled? && e.fts.Committed?
    && (VectorSucceeds(s, id, e.vector) || (e.vector.VectorCancelled? && e.vector.kept))
  }

  /** The compensating step runs and its change takes. */
  predicate Rebuilt(s: State, id: int, e: DeleteEnv) {
    && e.fts.Committed? && !e.vector.VectorCancelled? && !VectorSucceeds(s, id, e.vector)
    && BackupText(s, id, e.backup).Some? && BackupText(s, id, e.backup).value != ""
    && Took(e.rollback)
  }

  /** What a deletion does to the vector and the document of each identifier. */
  lemma DeletedStore(tok: Text -> Text, s: State, id: int, e: DeleteEnv, other: int)
    ensures var t := Deleted(tok, s, id, e).0;
      && t.vectors == (if VectorGone(s, id, e) then s.vectors - {id} else s.vectors)
      && (other != id ==> (other in t.documents <==> other in s.documents))
      && (other != id && other in s.documents ==> t.documents[other] == s.documents[other])
      && (id in t.documents ==> id in s.documents && t.documents[id] == s.documents[id])
      && (!VectorGone(s, id, e) ==> t.documents == s.documents)
  {}

  /** What a deletion does to the rows of each identifier. */
  lemma DeletedRows(tok: Text -> Text, s: State, id: int, e: DeleteEnv, other: int)
    ensures var t := Deleted(tok, s, id, e).0;
      && (other != id ==> RowsOf(t.rows, other) == RowsOf(s.rows, other))
      && RowsOf(t.rows, id) == (
          if e.backup.BackupCancelled? || !Took(e.fts) then RowsOf(s.rows, id)
          else if Rebuilt(s, id, e) then [Row(id, tok(s.documents[id]))] else [])
  {
    RemovedRows(s.rows, id, e.fts, id);
    RemovedRows(s.rows, id, e.fts, other);
    var backup := BackupText(s, id, e.backup);
    if backup.Some? {
      var rows := Removed(s.rows, id, e.fts);
      RewrittenRows(rows, id, tok(backup.value), e.rollback, id);
      RewrittenRows(rows, id, tok(backup.value), e.rollback, other);
    }
  }

  /**
   A deletion answers true exactly when all its calls up to the vector layer succeed and the last one is not
   cancelled.  Then the rows and the vector are gone; the document may outlive them.
   */
  lemma TrueMeansGone(tok: Text -> Text, s: State, id: int, e: DeleteEnv)
    ensures var (t, r) := Deleted(tok, s, id, e);
      && (r.True? <==> !e.backup.BackupCancelled? && e.fts.Committed? && VectorSucceeds(s, id, e.vector) && !e.table.Cancelled?)
      && (r.True? ==>
            && RowsOf(t.rows, id) == [] && t.vectors == s.vectors - {id}
            && (id in t.documents <==> id in s.documents && !e.vector.rowToo && !Took(e.table)))
  {
    DeletedStore(tok, s, id, e, id);
    DeletedRows(tok, s, id, e, id);
  }

  /** There is a text to restore the row from. */
  predicate HasBackup(s: State, id: int, e: DeleteEnv) {
    id in s.documents && s.documents[id] != "" && (e.backup == Read || e.backup == BackupRaised(true))
  }

  /** Which answer a deletion gives, in terms of how its calls end; the restoring write may itself be cancelled. */
  lemma DeleteAnswers(tok: Text -> Text, s: State, id: int, e: DeleteEnv)
    ensures var r := Deleted(tok, s, id, e).1;
      var answered := e.vector.VectorDeleted? && (id in s.documents || e.vector.cached);
      && (r == True <==> e.backup != BackupCancelled && e.fts == Committed && answered && !e.table.Cancelled?)
      && (r == False <==>
            && e.backup != BackupCancelled
            && (e.fts.Raised?
                || (e.fts == Committed && !answered && !e.vector.VectorCancelled? && !(HasBackup(s, id, e) && e.rollback.Cancelled?))))
      && (r == CancelledError <==>
            || e.backup == BackupCancelled || e.fts.Cancelled?
            || (e.fts == Committed && (
                  || e.vector.VectorCancelled? || (answered && e.table.Cancelled?)
                  || (!answered && HasBackup(s, id, e) && e.rollback.Cancelled?))))
  {}

  /** What a deletion leaves of the memory it is about, however its calls end. */
  lemma DeleteLeaves(tok: Text -> Text, s: State, id: int, e: DeleteEnv)
    ensures var t := Deleted(tok, s, id, e).0;
      var reached := e.backup != BackupCancelled && e.fts == Committed;
      var answered := e.vector.VectorDeleted? && (id in s.documents || e.vector.cached);
      && t.vectors == (if reached && (answered || e.vector == VectorCancelled(true)) then s.vectors - {id} else s.vectors)
      && t.documents == (
          if reached && answered && (e.vector.rowToo || e.table == Committed || e.table == Raised(true) || e.table == Cancelled(true))
          then s.documents - {id} else s.documents)
      && RowsOf(t.rows, id) == (
          if e.backup == BackupCancelled || e.fts == Raised(false) || e.fts == Cancelled(false) then RowsOf(s.rows, id)
          else if reached && !answered && !e.vector.VectorCancelled? && HasBackup(s, id, e)
            && (e.rollback == Committed || e.rollback == Raised(true) || e.rollback == Cancelled(true))
          then [Row(id, tok(s.documents[id]))] else [])
  {
    DeletedRows(tok, s, id, e, id);
  }

  /** Why a deletion that answers false may have lost the rows. */
  predicate RowsLost(s: State, id: int, e: DeleteEnv) {
    !e.backup.BackupCancelled? && Took(e.fts) && !Rebuilt(s, id, e)
  }

  /**
   A deletion that answers false left vectors and documents alone.  The rows are untouched, or one row
   rebuilt from the stored text, or lost; they are lost exactly when the full-text deletion took although
   it raised, when no text was backed up, or when the restoring write did not take.
   */
  lemma FalseMeansKept(tok: Text -> Text, s: State, id: int, e: DeleteEnv)
    requires Deleted(tok, s, id, e).1.False?
    ensures var t := Deleted(tok, s, id, e).0;
      && t.vectors == s.vectors && t.documents == s.documents
      && (!Took(e.fts) ==> RowsOf(t.rows, id) == RowsOf(s.rows, id))
      && (Took(e.fts) && !RowsLost(s, id, e) ==> id in s.documents && RowsOf(t.rows, id) == [Row(id, tok(s.documents[id]))])
      && (RowsLost(s, id, e) ==> RowsOf(t.rows, id) == [])
    ensures RowsLost(s, id, e) <==>
      || e.fts == Raised(true)
      || (e.fts.Committed? && (
            || BackupText(s, id, e.backup).None? || BackupText(s, id, e.backup).value == ""
            || !Took(e.rollback)))
  {
    DeletedStore(tok, s, id, e, id);
    DeletedRows(tok, s, id, e, id);
  }

  /** A cancellation in the vector call is not compensated: the memory keeps its vector and loses its rows. */
  lemma CancellationLosesRows(tok: Text -> Text, s: State, id: int, e: DeleteEnv)
    requires id in s.vectors && !e.backup.BackupCancelled? && e.fts.Committed? && e.vector == VectorCancelled(false)
    ensures var (t, r) := Deleted(tok, s, id, e); r.CancelledError? && id in t.vectors && RowsOf(t.rows, id) == []
  {
    DeletedStore(tok, s, id, e, id);
    DeletedRows(tok, s, id, e, id);
  }

  /**
   A deletion brings a row back for a memory without vector and row exactly when its document remains with a
   text and the vector layer answers false or raises.
   */
  lemma RowBroughtBackIff(tok: Text -> Text, s: State, id: int, e: DeleteEnv)
    requires id !in s.vectors && RowsOf(s.rows, id) == []
    ensures RowsOf(Deleted(tok, s, id, e).0.rows, id) != [] <==>
      && !e.backup.BackupCancelled? && e.fts.Committed? && Took(e.rollback)
      && BackupText(s, id, e.backup).Some? && BackupText(s, id, e.backup).value != ""
      && (e.vector.VectorFalse? || e.vector.VectorRaised?)
  {
    DeletedStore(tok, s, id, e, id);
    DeletedRows(tok, s, id, e, id);
  }

  // What adding and updating leave.

  /**
   An answer with an identifier means that vector, document and row are there.  A failure after the insert
   leaves the memory stored, and its row exactly when the full-text write took; a failed insert leaves nothing.
   */
  lemma AddOutcome(tok: Text -> Text, s: State, text: Text, i: InsertReply, o: Sql)
    requires Inv(s) && (i.AddedAs? ==> i.id !in s.documents)
    ensures var (t, r) := AddedTo(tok, s, text, i, o);
      && (i.InsertRaised? ==> t == s && r.AddRaised?)
      && (i.AddedAs? ==>
            && i.id in t.vectors && i.id in t.documents && t.documents[i.id] == text
            && RowsOf(t.rows, i.id) == (if Took(o) then [Row(i.id, tok(text))] else []))
      && (i.AddedAs? ==> t.vectors[i.id] == text)
      && r == (if i.AddedAs? && o == Committed then Added(i.id) else AddRaised)
      && (r.Added? ==> RowsOf(t.rows, r.id) == [Row(r.id, tok(text))])
  {
    if i.AddedAs? {
      AddedRows(tok, s, text, i, o, i.id);
    }
  }

  /**
   An update answers true exactly when the text is not blank, the document is there, the new text was
   committed and nothing was cancelled; vector and row may still be the old ones, and the vector may be gone.
   An update that answers false without a commit leaves all stores alone.
   */
  lemma UpdateOutcome(tok: Text -> Text, s: State, id: int, text: Text, e: UpdateEnv)
    ensures var (t, r) := Updated(tok, s, id, text, e);
      && (r.True? <==> !Blank(text) && id in s.documents && e.canonical.Committed? && !e.refresh.cancelled && !e.fts.Cancelled?)
      && (r.True? ==> t.documents == s.documents[id := text])
      && (r.True? ==> t.vectors == Refreshed(s, id, text, e.refresh.left).vectors)
      && (r.True? ==> RowsOf(t.rows, id) == (if Took(e.fts) then [Row(id, tok(text))] else RowsOf(s.rows, id)))
      && (r.False? && e.canonical != Raised(true) ==> t == s)
      && (r.False? ==> t.vectors == s.vectors && t.rows == s.rows)
  {
    UpdatedRows(tok, s, id, text, e, id);
  }

  /** Which answer an update gives, and what it leaves, however its calls end. */
  lemma UpdateAnswers(tok: Text -> Text, s: State, id: int, text: Text, e: UpdateEnv)
    ensures var (t, r) := Updated(tok, s, id, text, e);
      var blank := forall c :: c in text ==> c == ' ' || c == '\t' || c == '\n' || c == '\r';
      var written := !blank && id in s.documents && (e.canonical == Committed || e.canonical == Raised(true) || e.canonical == Cancelled(true));
      var refreshed := !blank && id in s.documents && e.canonical == Committed;
      && (r == False <==> blank || (id !in s.documents && !e.canonical.Cancelled?) || (id in s.documents && e.canonical.Raised?))
      && (r == CancelledError <==>
            !blank && (e.canonical.Cancelled? || (refreshed && (e.refresh.cancelled || e.fts.Cancelled?))))
      && t.documents == (if written then s.documents[id := text] else s.documents)
      && t.vectors == (
          if refreshed && e.refresh.left == Gone then s.vectors - {id}
          else if refreshed && e.refresh.left == Renewed then s.vectors[id := text] else s.vectors)
      && RowsOf(t.rows, id) == (
          if refreshed && !e.refresh.cancelled && (e.fts == Committed || e.fts == Raised(true) || e.fts == Cancelled(true))
          then [Row(id, tok(text))] else RowsOf(s.rows, id))
  {
    assert Blank(text) <==> forall c :: c in text ==> c == ' ' || c == '\t' || c == '\n' || c == '\r';
    UpdatedRows(tok, s, id, text, e, id);
  }

  // Runs.

  datatype Op =
    | Add(text: Text, insert: InsertReply, o: Sql)
    | Update(id: int, text: Text, e: UpdateEnv)
    | Delete(id: int, env: DeleteEnv)

  function Step(tok: Text -> Text, s: State, op: Op): State {
    match op
    case Add(text, i, o) => AddedTo(tok, s, text, i, o).0
    case Update(id, text, e) => Updated(tok, s, id, text, e).0
    case Delete(id, e) => Deleted(tok, s, id, e).0
  }

  /** The store gives a new memory a key that is not in use. */
  predicate Enabled(s: State, op: Op) {
    op.Add? && op.insert.AddedAs? ==> op.insert.id !in s.documents && op.insert.id !in s.vectors
  }

  function Run(tok: Text -> Text, s: State, ops: seq<Op>): State {
    if ops == [] then s else Step(tok, Run(tok, s, ops[..|ops| - 1]), ops[|ops| - 1])
  }

  predicate AllEnabled(tok: Text -> Text, s: State, ops: seq<Op>) {
    ops == [] || (AllEnabled(tok, s, ops[..|ops| - 1]) && Enabled(Run(tok, s, ops[..|ops| - 1]), ops[|ops| - 1]))
  }

  const Empty := State([], map[], map[])

  /** Every row belongs to a stored document, and a document has at most one row. */
  ghost predicate Inv(s: State) {
    forall id :: RowsOf(s.rows, id) != [] ==> id in s.documents && |RowsOf(s.rows, id)| == 1
  }

  lemma AddedRows(tok: Text -> Text, s: State, text: Text, i: InsertReply, o: Sql, other: int)
    ensures var t := AddedTo(tok, s, text, i, o).0;
      RowsOf(t.rows, other) == RowsOf(s.rows, other) + if i.AddedAs? && Took(o) && other == i.id then [Row(other, tok(text))] else []
  {
    if i.AddedAs? {
      AppendedRows(s.rows, Row(i.id, tok(text)), other);
    }
  }

  /** The row is rewritten: the update gets as far as the full-text write, and that takes. */
  predicate RowRenewed(s: State, id: int, text: Text, e: UpdateEnv) {
    !Blank(text) && id in s.documents && e.canonical.Committed? && !e.refresh.cancelled && Took(e.fts)
  }

  lemma UpdatedRows(tok: Text -> Text, s: State, id: int, text: Text, e: UpdateEnv, other: int)
    ensures var t := Updated(tok, s, id, text, e).0;
      RowsOf(t.rows, other) == if RowRenewed(s, id, text, e) && other == id then [Row(id, tok(text))] else RowsOf(s.rows, other)
  {
    RewrittenRows(s.rows, id, tok(text), e.fts, other);
  }

  lemma StepKeepsInv(tok: Text -> Text, s: State, op: Op)
    requires Inv(s) && Enabled(s, op)
    ensures Inv(Step(tok, s, op))
  {
    var t := Step(tok, s, op);
    forall id | RowsOf(t.rows, id) != [] ensures id in t.documents && |RowsOf(t.rows, id)| == 1 {
      match op
      case Add(text, i, o) => AddedRows(tok, s, text, i, o, id);
      case Update(target, text, e) => UpdatedRows(tok, s, target, text, e, id);
      case Delete(target, e) => DeletedStore(tok, s, target, e, id); DeletedRows(tok, s, target, e, id);
    }
  }

  /** However the calls end, no run leaves a row without its document or two rows for one document. */
  lemma {:induction false} RunKeepsInv(tok: Text -> Text, ops: seq<Op>)
    requires AllEnabled(tok, Empty, ops)
    ensures Inv(Run(tok, Empty, ops))
  {
    if ops != [] {
      RunKeepsInv(tok, ops[..|ops| - 1]);
      StepKeepsInv(tok, Run(tok, Empty, ops[..|ops| - 1]), ops[|ops| - 1]);
    }
  }

  /** The identifier an operation is about, if its call gets that far. */
  predicate Touches(op: Op, id: int) {
    match op case Add(_, i, _) => i.AddedAs? && i.id == id case Update(target, _, _) => target == id case Delete(target, _) => target == id
  }

  /** An operation on one memory leaves rows, vector and document of every other memory as they were. */
  lemma OthersUntouched(tok: Text -> Text, s: State, op: Op, other: int)
    requires !Touches(op, other)
    ensures var t := Step(tok, s, op);
      && RowsOf(t.rows, other) == RowsOf(s.rows, other)
      && (other in t.vectors <==> other in s.vectors)
      && (other in s.vectors ==> t.vectors[other] == s.vectors[other])
      && (other in t.documents <==> other in s.documents)
      && (other in s.documents ==> t.documents[other] == s.documents[other])
  {
    match op
    case Add(text, i, o) => AddedRows(tok, s, text, i, o, other);
    case Update(target, text, e) => UpdatedRows(tok, s, target, text, e, other);
    case Delete(target, e) => DeletedStore(tok, s, target, e, other); DeletedRows(tok, s, target, e, other);
  }

  /** The stores agree on a memory: its vector and its one row are of the current text, or there is neither. */
  predicate Agree(tok: Text -> Text, s: State, id: int) {
    if id in s.vectors then id in s.documents && s.vectors[id] == s.documents[id] && RowsOf(s.rows, id) == [Row(id, tok(s.documents[id]))]
    else RowsOf(s.rows, id) == []
  }

  /** An update of agreeing stores leaves an old vector or row beside the new text, or one without the other. */
  predicate UpdateBreaks(tok: Text -> Text, s: State, id: int, text: Text, e: UpdateEnv) {
    && !Blank(text) && id in s.documents && Took(e.canonical)
    && if !e.canonical.Committed? then id in s.vectors && text != s.documents[id]
       else match e.refresh.left
         case Renewed => !RowRenewed(s, id, text, e) && !(id in s.vectors && tok(text) == tok(s.documents[id]))
         case Gone => id in s.vectors || RowRenewed(s, id, text, e)
         case Untouched => if id in s.vectors then text != s.documents[id] else RowRenewed(s, id, text, e)
  }

  /** The outcomes that make agreeing stores disagree. */
  predicate Breaks(tok: Text -> Text, s: State, op: Op) {
    match op
    case Add(_, i, o) => i.AddedAs? && !Took(o)
    case Update(id, text, e) => UpdateBreaks(tok, s, id, text, e)
    case Delete(id, e) =>
      if id in s.vectors then RowsLost(s, id, e) && !VectorGone(s, id, e)
      else !e.backup.BackupCancelled? && Rebuilt(s, id, e)
  }

  /** Agreement on a memory survives an operation on it exactly when the operation does not break it. */
  lemma AgreementKeptIff(tok: Text -> Text, s: State, op: Op, id: int)
    requires Agree(tok, s, id) && Enabled(s, op) && Touches(op, id)
    ensures Agree(tok, Step(tok, s, op), id) <==> !Breaks(tok, s, op)
  {
    match op
    case Add(text, i, o) => AddedRows(tok, s, text, i, o, id);
    case Update(target, text, e) => UpdatedRows(tok, s, target, text, e, id);
    case Delete(target, e) => DeletedStore(tok, s, target, e, id); DeletedRows(tok, s, target, e, id);
  }

  /** No operation on this memory has a breaking outcome. */
  predicate NoneBreaks(tok: Text -> Text, s: State, ops: seq<Op>, id: int) {
    ops == [] || (
      && NoneBreaks(tok, s, ops[..|ops| - 1], id)
      && (Touches(ops[|ops| - 1], id) ==> !Breaks(tok, Run(tok, s, ops[..|ops| - 1]), ops[|ops| - 1])))
  }

  /** A run without breaking outcomes for a memory leaves the stores in agreement on it, whatever happens to others. */
  lemma {:induction false} RunKeepsAgreement(tok: Text -> Text, ops: seq<Op>, id: int)
    requires AllEnabled(tok, Empty, ops) && NoneBreaks(tok, Empty, ops, id)
    ensures Agree(tok, Run(tok, Empty, ops), id)
  {
    if ops != [] {
      var init, last := ops[..|ops| - 1], ops[|ops| - 1];
      RunKeepsAgreement(tok, init, id);
      if Touches(last, id) {
        AgreementKeptIff(tok, Run(tok, Empty, init), last, id);
      } else {
        OthersUntouched(tok, Run(tok, Empty, init), last, id);
      }
    }
  }
}
