/**
 The lifecycle status of a memory, read once by an SQL expression over the stored JSON text and once by
 Python over the parsed dictionary, and the setter that writes it.

 A JSON object is the list of its members in document order, and a key may occur several times.
 */
module MemoryStatus {
  import opened Options

  datatype Json = Text(text: string) | Number(number: real) | Bool(b: bool) | OtherJson

  datatype Member = Member(key: string, value: Json)

  /** The stored metadata: text that is no JSON, a JSON value that is no object, or an object. */
  datatype Metadata = NotJson | NotAnObject | Object(members: seq<Member>)

  datatype Status = Active | Dormant | Archived | Deleted | Unknown

  const MEMORY_STATUS := "memory_status"
  const STATUS := "status"
  const STATUS_CHANGED_AT := "status_changed_at"

  function Name(s: Status): string {
    match s case Active => "active" case Dormant => "dormant" case Archived => "archived" case Deleted => "deleted" case Unknown => "unknown"
  }

  // The SQL expression.

  /** The characters 9 to 13 and the space. */
  predicate SqlSpace(c: char) { 9 <= c as int <= 13 || c == ' ' }

  function TrimLeft(s: string): string { if s != "" && SqlSpace(s[0]) then TrimLeft(s[1..]) else s }

  function TrimRight(s: string): string { if s != "" && SqlSpace(s[|s| - 1]) then TrimRight(s[..|s| - 1]) else s }

  function LowerChar(c: char): char { if 'A' <= c <= 'Z' then c + 32 as char else c }

  function Lower(s: string): string { if s == "" then "" else [LowerChar(s[0])] + Lower(s[1..]) }

  /** `LOWER(TRIM(...))` */
  function SqlNormalize(s: string): string { Lower(TrimRight(TrimLeft(s))) }

  /** The value of the last member with the key: descending order of identifiers, first row. */
  function LastValue(members: seq<Member>, key: string): Option<Json> {
    if members == [] then None
    else if members[|members| - 1].key == key then Some(members[|members| - 1].value)
    else LastValue(members[..|members| - 1], key)
  }

  /** The branches of the inner `CASE`; no branch gives no value. */
  function CaseStatus(s: string): Option<Status> {
    if s == "current" then Some(Active)
    else if s == "stable" then Some(Active)
    else if s == Name(Active) then Some(Active)
    else if s == Name(Dormant) then Some(Dormant)
    else if s == Name(Archived) then Some(Archived)
    else if s == Name(Deleted) then Some(Deleted)
    else None
  }

  function SqlField(members: seq<Member>, key: string): Option<Status> {
    var value := LastValue(members, key);
    if value.Some? && value.value.Text? then CaseStatus(SqlNormalize(value.value.text)) else None
  }

  predicate Exists(members: seq<Member>, key: string) { exists i :: 0 <= i < |members| && members[i].key == key }

  function MemoryStatusSql(m: Metadata): Status {
    if !m.Object? then Active
    else
      var first := SqlField(m.members, MEMORY_STATUS);
      var second := SqlField(m.members, STATUS);
      if first.Some? then first.value
      else if second.Some? then second.value
      else if Exists(m.members, MEMORY_STATUS) || Exists(m.members, STATUS) then Unknown
      else Active
  }

  // The Python functions.

  predicate PySpace(c: char) { c == ' ' || c == '\t' || c == '\n' || c == '\r' || c == '\U{0B}' || c == '\U{0C}' }

  /** The text between the first and the last character that is not stripped. */
  function Strip(s: string): string {
    if HasKept(s) then s[FirstKept(s)..LastKept(s) + 1] else ""
  }

  predicate HasKept(s: string) { exists i :: 0 <= i < |s| && !PySpace(s[i]) }

  function FirstKept(s: string): (r: nat)
    requires HasKept(s)
    ensures r < |s| && !PySpace(s[r]) && forall i :: 0 <= i < r ==> PySpace(s[i])
  {
    if !PySpace(s[0]) then 0
    else
      1 + FirstKept(s[1..])
  }

  function LastKept(s: string): (r: nat)
    requires HasKept(s)
    ensures r < |s| && !PySpace(s[r]) && forall i :: r < i < |s| ==> PySpace(s[i])
  {
    if !PySpace(s[|s| - 1]) then |s| - 1
    else
      LastKept(s[..|s| - 1])
  }

  /** Every character looked up in the translation table from upper to lower case. */
  function Translate(s: string): string { seq(|s|, i requires 0 <= i < |s| => LowerChar(s[i])) }

  function NormalizeStatusText(s: string): string { Translate(Strip(s)) }

  method JsonLoads(members: seq<Member>) returns (m: map<string, Json>)
    ensures forall key :: key in m <==> Exists(members, key)
    ensures forall key :: LastValue(members, key) == if key in m then Some(m[key]) else None
  {
    m := map[];
    for i := 0 to |members|
      invariant forall key :: key in m <==> Exists(members[..i], key)
      invariant forall key :: LastValue(members[..i], key) == if key in m then Some(m[key]) else None
    {
      assert members[..i + 1][..i] == members[..i];
      assert members[..i + 1][i] == members[i];
      forall key | Exists(members[..i], key) ensures Exists(members[..i + 1], key) {
        var j :| 0 <= j < i && members[..i][j].key == key;
        assert members[..i + 1][j].key == key;
      }
      m := m[members[i].key := members[i].value];
    }
    assert members[..|members|] == members;
  }

  /** The status of a parsed dictionary; `default` is used when neither field is there. */
  method EffectiveMemoryStatus(metadata: Option<map<string, Json>>, default: Status) returns (r: Status)
    ensures r == EffectiveOf(metadata, default)
  {
    if metadata.Some? {
      var m := metadata.value;
      var hasStatusField := false;
      var fields := [MEMORY_STATUS, STATUS];
      for i := 0 to |fields|
        invariant hasStatusField <==> exists j :: 0 <= j < i && fields[j] in m
        invariant forall j :: 0 <= j < i ==> FieldStatus(m, fields[j]).None?
      {
        assert fields[0] == MEMORY_STATUS && fields[1] == STATUS && (i == 0 || i == 1);
        if fields[i] in m {
          hasStatusField := true;
          if m[fields[i]].Text? {
            var normalized := NormalizeStatusText(m[fields[i]].text);
            if normalized == "current" || normalized == "stable" {
              assert FieldStatus(m, fields[i]) == CaseStatus(normalized) == Some(Active);
              return Active;
            }
            var status := CaseStatus(normalized);
            if status.Some? {
              return status.value;
            }
          }
        }
      }
      assert FieldStatus(m, fields[0]).None? && FieldStatus(m, fields[1]).None?;
      assert hasStatusField <==> fields[0] in m || fields[1] in m;
      if hasStatusField {
        return Unknown;
      }
    }
    r := default;
  }

  /** The status that a text field of the dictionary names. */
  function FieldStatus(m: map<string, Json>, key: string): Option<Status> {
    if key in m && m[key].Text? then CaseStatus(NormalizeStatusText(m[key].text)) else None
  }

  function EffectiveOf(metadata: Option<map<string, Json>>, default: Status): Status {
    if metadata.None? then default
    else if FieldStatus(metadata.value, MEMORY_STATUS).Some? then FieldStatus(metadata.value, MEMORY_STATUS).value
    else if FieldStatus(metadata.value, STATUS).Some? then FieldStatus(metadata.value, STATUS).value
    else if MEMORY_STATUS in metadata.value || STATUS in metadata.value then Unknown
    else default
  }

  /** Without a dictionary, or without either field in it, the status is the default. */
  lemma DefaultWithoutFields(metadata: Option<map<string, Json>>, default: Status)
    requires metadata.Some? ==> "memory_status" !in metadata.value && "status" !in metadata.value
    ensures EffectiveOf(metadata, default) == default
  {}

  // Agreement.

  lemma {:induction false} TrimLeftIsSlice(s: string)
    ensures if HasKept(s) then TrimLeft(s) == s[FirstKept(s)..] else TrimLeft(s) == ""
  {
    if s != "" {
      if PySpace(s[0]) {
        TrimLeftIsSlice(s[1..]);
        if HasKept(s) {
          assert s[1..][FirstKept(s[1..])..] == s[FirstKept(s)..];
        }
      }
    }
  }

  lemma {:induction false} TrimRightIsSlice(s: string)
    ensures if HasKept(s) then TrimRight(s) == s[..LastKept(s) + 1] else TrimRight(s) == ""
  {
    if s != "" {
      if PySpace(s[|s| - 1]) {
        TrimRightIsSlice(s[..|s| - 1]);
        if HasKept(s) {
          assert s[..|s| - 1][..LastKept(s) + 1] == s[..LastKept(s) + 1];
        }
      }
    }
  }

  lemma {:induction false} LowerIsTranslate(s: string)
    ensures Lower(s) == Translate(s)
  {
    if s != "" {
      LowerIsTranslate(s[1..]);
      assert Translate(s) == [LowerChar(s[0])] + Translate(s[1..]);
    }
  }

  /** Trimming from both ends in turn keeps the text between the first and the last kept character. */
  lemma TrimIsStrip(s: string)
    ensures TrimRight(TrimLeft(s)) == Strip(s)
  {
    TrimLeftIsSlice(s);
    if HasKept(s) {
      var first := FirstKept(s);
      TrimRightIsSlice(s[first..]);
    }
  }

  lemma NormalizersAgree(s: string)
    ensures SqlNormalize(s) == NormalizeStatusText(s)
  {
    TrimIsStrip(s);
    LowerIsTranslate(Strip(s));
  }

  /** A status text is read without the blanks around it, and with its ASCII capitals lowered. */
  lemma NormalizedIsExactly(s: string) returns (before: nat, after: nat)
    ensures before <= after <= |s| && |NormalizeStatusText(s)| == after - before
    ensures forall i :: 0 <= i < before || after <= i < |s| ==> s[i] as int in {9, 10, 11, 12, 13, 32}
    ensures before < after ==> s[before] as int !in {9, 10, 11, 12, 13, 32} && s[after - 1] as int !in {9, 10, 11, 12, 13, 32}
    ensures forall i :: before <= i < after ==>
      NormalizeStatusText(s)[i - before] as int == (if 65 <= s[i] as int <= 90 then s[i] as int + 32 else s[i] as int)
  {
    if HasKept(s) {
      before, after := FirstKept(s), LastKept(s) + 1;
      assert !PySpace(s[FirstKept(s)]);
    } else {
      before, after := 0, 0;
    }
    assert forall c: char :: PySpace(c) <==> c as int in {9, 10, 11, 12, 13, 32};
  }

  /** The names of the statuses and the two old aliases; any other text names none. */
  lemma NamesAreExactly(s: string)
    ensures CaseStatus(s) == Some(Active) <==> s == "active" || s == "current" || s == "stable"
    ensures CaseStatus(s) == Some(Dormant) <==> s == "dormant"
    ensures CaseStatus(s) == Some(Archived) <==> s == "archived"
    ensures CaseStatus(s) == Some(Deleted) <==> s == "deleted"
    ensures CaseStatus(s) != Some(Unknown) && Name(Unknown) == "unknown"
  {}

  predicate IsLastMember(members: seq<Member>, key: string, i: nat) {
    i < |members| && members[i].key == key && forall j :: i < j < |members| ==> members[j].key != key
  }

  /** Of several members with one key the last one gives the value. */
  lemma {:induction false} LastValueIsExactly(members: seq<Member>, key: string)
    ensures forall i: nat :: IsLastMember(members, key, i) ==> LastValue(members, key) == Some(members[i].value)
    ensures (forall m :: m in members ==> m.key != key) ==> LastValue(members, key).None?
  {
    if members != [] && members[|members| - 1].key != key {
      var init := members[..|members| - 1];
      LastValueIsExactly(init, key);
      forall i: nat | IsLastMember(members, key, i) ensures LastValue(members, key) == Some(members[i].value) {
        assert IsLastMember(init, key, i);
      }
    }
  }

  /** The memory status comes first, then the old status field, and a dictionary with neither is active. */
  lemma SqlStatusIsExactly(m: Metadata)
    ensures !m.Object? ==> MemoryStatusSql(m) == Active
    ensures m.Object? && SqlField(m.members, "memory_status").Some? ==> MemoryStatusSql(m) == SqlField(m.members, "memory_status").value
    ensures m.Object? && SqlField(m.members, "memory_status").None? && SqlField(m.members, "status").Some? ==>
      MemoryStatusSql(m) == SqlField(m.members, "status").value
    ensures m.Object? && SqlField(m.members, "memory_status").None? && SqlField(m.members, "status").None? ==>
      MemoryStatusSql(m) ==
        if exists i :: 0 <= i < |m.members| && (m.members[i].key == "memory_status" || m.members[i].key == "status")
        then Unknown else Active
  {}

  lemma FieldsAgree(members: seq<Member>, m: map<string, Json>, key: string)
    requires LastValue(members, key) == if key in m then Some(m[key]) else None
    ensures SqlField(members, key) == FieldStatus(m, key)
  {
    if key in m && m[key].Text? {
      NormalizersAgree(m[key].text);
    }
  }

  /** Parsing the metadata in Python and reading its status gives what the SQL expression selects. */
  method StatusOfDocument(m: Metadata) returns (r: Status)
    ensures r == MemoryStatusSql(m)
  {
    var parsed: Option<map<string, Json>> := None;
    if m.Object? {
      var loaded := JsonLoads(m.members);
      parsed := Some(loaded);
      FieldsAgree(m.members, loaded, MEMORY_STATUS);
      FieldsAgree(m.members, loaded, STATUS);
    }
    r := EffectiveMemoryStatus(parsed, Active);
  }

  /** The last value of the field is a text that names a status. */
  predicate Readable(members: seq<Member>, key: string) {
    var v := LastValue(members, key);
    v.Some? && v.value.Text? && CaseStatus(NormalizeStatusText(v.value.text)).Some?
  }

  /** Metadata that names a status field but no readable status is unknown, so it is never taken for active. */
  lemma UnreadableIsUnknown(m: Metadata)
    requires m.Object? && (Exists(m.members, MEMORY_STATUS) || Exists(m.members, STATUS))
    ensures MemoryStatusSql(m) == Unknown <==> !Readable(m.members, MEMORY_STATUS) && !Readable(m.members, STATUS)
  {
    FieldReads(m.members, MEMORY_STATUS);
    FieldReads(m.members, STATUS);
  }

  lemma FieldReads(members: seq<Member>, key: string)
    ensures SqlField(members, key).Some? <==> Readable(members, key)
    ensures SqlField(members, key) != Some(Unknown)
  {
    if LastValue(members, key).Some? && LastValue(members, key).value.Text? {
      NormalizersAgree(LastValue(members, key).value.text);
    }
  }

  // Writing.

  datatype Stamp = Finite(at: real) | NotFinite | NotANumber

  datatype WriteResult = Written | StatusInvalid | StampInvalid

  /** A status that may be written; the old aliases may not. */
  function WritableStatus(status: Json): Option<Status> {
    if !status.Text? then None
    else
      var n := NormalizeStatusText(status.text);
      if n == "current" || n == "stable" then None else CaseStatus(n)
  }

  class MetadataStore {
    var fields: map<string, Json>

    constructor (fields: map<string, Json>)
      ensures this.fields == fields
    {
      this.fields := fields;
    }

    /** Writes both status fields and the time, or nothing. */
    method SetMemoryStatus(status: Json, at: Stamp) returns (r: WriteResult)
      modifies this
      ensures r.StatusInvalid? <==> WritableStatus(status).None?
      ensures r.StampInvalid? <==> WritableStatus(status).Some? && !at.Finite?
      ensures fields == if r.Written? then WithStatus(old(fields), WritableStatus(status).value, at.at) else old(fields)
    {
      var normalized := WritableStatus(status);
      if normalized.None? {
        return StatusInvalid;
      }
      if !at.Finite? {
        return StampInvalid;
      }
      fields := fields[MEMORY_STATUS := Text(Name(normalized.value))];
      fields := fields[STATUS := Text(Name(normalized.value))];
      fields := fields[STATUS_CHANGED_AT := Number(at.at)];
      r := Written;
    }
  }

  function WithStatus(fields: map<string, Json>, s: Status, at: real): map<string, Json> {
    fields[MEMORY_STATUS := Text(Name(s))][STATUS := Text(Name(s))][STATUS_CHANGED_AT := Number(at)]
  }

  /** What is written, and that the two old aliases and unknown cannot be. */
  lemma WrittenIsExactly(fields: map<string, Json>, s: Status, at: real, key: string)
    requires s != Unknown
    ensures var n := if s == Active then "active" else if s == Dormant then "dormant" else if s == Archived then "archived" else "deleted";
      var t := WithStatus(fields, s, at);
      && Name(s) == n && "memory_status" in t && t["memory_status"] == Text(n) && "status" in t && t["status"] == Text(n)
      && "status_changed_at" in t && t["status_changed_at"] == Number(at)
    ensures key !in {"memory_status", "status", "status_changed_at"} ==>
      (key in WithStatus(fields, s, at) <==> key in fields) && (key in fields ==> WithStatus(fields, s, at)[key] == fields[key])
  {
    assert MEMORY_STATUS != STATUS && STATUS != STATUS_CHANGED_AT && MEMORY_STATUS != STATUS_CHANGED_AT by {
      assert |MEMORY_STATUS| == 13 && |STATUS| == 6 && |STATUS_CHANGED_AT| == 17;
    }
  }

  lemma WritableIsExactly(status: Json)
    ensures WritableStatus(status).Some? <==>
      status.Text? && NormalizeStatusText(status.text) in ["active", "dormant", "archived", "deleted"]
    ensures WritableStatus(status).Some? ==> Name(WritableStatus(status).value) == NormalizeStatusText(status.text)
  {
    if status.Text? {
      NamesAreExactly(NormalizeStatusText(status.text));
    }
  }

  lemma NameIsNormal(s: Status)
    ensures NormalizeStatusText(Name(s)) == Name(s)
  {
    var n := Name(s);
    assert forall i :: 0 <= i < |n| ==> 'a' <= n[i] <= 'z';
    assert !PySpace(n[0]) && !PySpace(n[|n| - 1]);
    assert FirstKept(n) == 0 && LastKept(n) == |n| - 1;
    assert Translate(n) == n;
  }

  /**
   A written status is read back by both readers, from every document that holds the written dictionary,
   whatever the old fields were and however often a key occurs in it.
   */
  lemma WrittenStatusIsRead(fields: map<string, Json>, s: Status, at: real, members: seq<Member>)
    requires s != Unknown
    requires forall key ::
      LastValue(members, key) == (if key in WithStatus(fields, s, at) then Some(WithStatus(fields, s, at)[key]) else None)
    ensures EffectiveOf(Some(WithStatus(fields, s, at)), Active) == s
    ensures MemoryStatusSql(Object(members)) == s
  {
    var m := WithStatus(fields, s, at);
    NameIsNormal(s);
    assert m[MEMORY_STATUS] == Text(Name(s));
    FieldsAgree(members, m, MEMORY_STATUS);
  }

}
