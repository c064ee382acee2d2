/**
 * The `patient_visit` pivot table as its migration declares it: the columns,
 * their nullability, the status enum domain and its default, and the
 * `up`/`down` pair.
 */
module PatientVisitMigration {
  import opened Common
  import PatientVisitEnum

  datatype ColumnKind =
    | Id
    | UnsignedBigInteger
    | DateColumn
    | TextColumn
    | EnumColumn(allowed: seq<string>)
    | Timestamp

  datatype Column = Column(name: string, kind: ColumnKind, nullable: bool, default: Option<string>)

  const TableName := "patient_visit"

  /**
   * The default the status column is meant to get: the backed value of the
   * PENDING case.
   */
  function StatusDefault(): (d: string)
    ensures d in PatientVisitEnum.Keys()
    ensures d == "pending"
  {
    var c := PatientVisitEnum.CaseNamed("PENDING");
    assert c == Some(PatientVisitEnum.Pending);
    PatientVisitEnum.Value(c.value)
  }

  /**
   * The default as the migration writes it, `PatientVisitEnum::Pending`. No
   * case has that name (PHP class constants are case-sensitive and the case
   * is `PENDING`), so evaluating it throws and no default exists.
   */
  function StatusDefaultAsWritten(): (d: Option<string>)
    ensures d.None?
  {
    match PatientVisitEnum.CaseNamed("Pending")
    case None => None
    case Some(c) => Some(PatientVisitEnum.Value(c))
  }

  /** The columns of `patient_visit`, in declaration order. */
  function Table(): seq<Column> {
    [ Column("id", Id, false, None),
      Column("patient_id", UnsignedBigInteger, false, None),
      Column("visit_id", UnsignedBigInteger, false, None),
      Column("date", DateColumn, true, None),
      Column("description", TextColumn, true, None),
      Column("advice_transcription", TextColumn, true, None),
      Column("status", EnumColumn(PatientVisitEnum.Keys()), false, Some(StatusDefault())),
      Column("created_by", UnsignedBigInteger, true, None),
      Column("created_at", Timestamp, true, None),
      Column("updated_at", Timestamp, true, None) ]
  }

  /**
   * Ten columns; exactly date, description, advice_transcription, created_by
   * and the two timestamps are nullable; status alone is an enum, over the
   * four backed values, and alone has a default, inside that domain.
   */
  lemma TableShape()
    ensures var cs := Table();
      |cs| == 10 && cs[6].name == "status" &&
      (forall i :: 0 <= i < |cs| ==> (cs[i].nullable <==> i in {3, 4, 5, 7, 8, 9})) &&
      (forall i :: 0 <= i < |cs| ==> (cs[i].default.Some? <==> i == 6)) &&
      (forall i :: 0 <= i < |cs| ==> (cs[i].kind.EnumColumn? <==> i == 6)) &&
      cs[6].kind.allowed == PatientVisitEnum.Keys() && cs[6].default.value in cs[6].kind.allowed
  {
  }

  /** `up`; `None` when evaluating the schema throws. */
  function UpAsWritten(tables: set<string>): (r: Option<set<string>>)
    ensures r.None?
  {
    if StatusDefaultAsWritten().None? then None else Some(tables + {TableName})
  }

  /** `up` with the default resolved to the PENDING case. */
  function Up(tables: set<string>): (r: set<string>)
    ensures TableName in r && tables <= r
  {
    tables + {TableName}
  }

  /** `down` as written: drops `patient_visits`, a table `up` never creates. */
  function DownAsWritten(tables: set<string>): (r: set<string>)
    ensures "patient_visits" !in r
    ensures forall t :: t != "patient_visits" ==> (t in r <==> t in tables)
  {
    tables - {"patient_visits"}
  }

  /** `down` dropping the table `up` creates. */
  function Down(tables: set<string>): (r: set<string>)
    ensures TableName !in r
    ensures forall t :: t != TableName ==> (t in r <==> t in tables)
  {
    tables - {TableName}
  }

  /** As written, rolling back leaves `patient_visit` behind. */
  lemma {:induction false} RollbackAsWrittenKeepsTable(tables: set<string>)
    ensures TableName in DownAsWritten(Up(tables))
  {
    assert TableName != "patient_visits";
  }

  /** Rolling back a fresh `up` restores the schema. */
  lemma {:induction false} RollbackRestores(tables: set<string>)
    requires TableName !in tables
    ensures Down(Up(tables)) == tables
  {
  }

  /** A row of `patient_visit`; NOT NULL columns have plain types, nullable ones `Option`. */
  datatype PivotRow = PivotRow(
    id: nat, patientId: nat, visitId: nat,
    date: Option<int>, description: Option<string>, adviceTranscription: Option<string>,
    status: string, createdBy: Option<nat>, createdAt: Option<int>, updatedAt: Option<int>)

  /** The row values an insert gives; a missing status takes the column default. */
  datatype PivotInsert = PivotInsert(
    patientId: nat, visitId: nat,
    date: Option<int>, description: Option<string>, adviceTranscription: Option<string>,
    status: Option<string>, createdBy: Option<nat>, now: int)

  /**
   * Inserting one row: the status must lie in the enum domain, an absent
   * status becomes 'pending'; no unique index forbids a second row for the
   * same patient and visit.
   */
  function Insert(rows: seq<PivotRow>, nextId: nat, ins: PivotInsert): (r: Option<seq<PivotRow>>)
    ensures r.Some? <==> ins.status.None? || ins.status.value in PatientVisitEnum.Keys()
    ensures r.Some? ==> |r.value| == |rows| + 1 && r.value[..|rows|] == rows
    ensures r.Some? ==> var row := r.value[|rows|];
      row.patientId == ins.patientId && row.visitId == ins.visitId &&
      row.status in PatientVisitEnum.Keys() &&
      (ins.status.None? ==> row.status == "pending")
  {
    var status := if ins.status.Some? then ins.status.value else StatusDefault();
    if status !in PatientVisitEnum.Keys() then None
    else
      var row := PivotRow(nextId, ins.patientId, ins.visitId, ins.date, ins.description,
        ins.adviceTranscription, status, ins.createdBy, Some(ins.now), Some(ins.now));
      assert (rows + [row])[..|rows|] == rows;
      Some(rows + [row])
  }

  /** The rows linking one patient to one visit. */
  function LinksOf(rows: seq<PivotRow>, patientId: nat, visitId: nat): (r: seq<PivotRow>)
    ensures forall x :: x in r <==> x in rows && x.patientId == patientId && x.visitId == visitId
  {
    Where(rows, (x: PivotRow) => x.patientId == patientId && x.visitId == visitId)
  }

  /** Two inserts for the same pair both succeed and leave two links. */
  lemma {:induction false} SeveralRowsPerPair(rows: seq<PivotRow>, nextId: nat, ins: PivotInsert)
    requires ins.status.None?
    ensures Insert(rows, nextId, ins).Some?
    ensures Insert(Insert(rows, nextId, ins).value, nextId + 1, ins).Some?
    ensures var twice := Insert(Insert(rows, nextId, ins).value, nextId + 1, ins).value;
      twice[|rows|] != twice[|rows| + 1] &&
      twice[|rows|] in LinksOf(twice, ins.patientId, ins.visitId) &&
      twice[|rows| + 1] in LinksOf(twice, ins.patientId, ins.visitId)
  {
    var once := Insert(rows, nextId, ins).value;
    var twice := Insert(once, nextId + 1, ins).value;
    assert twice[|rows|] == once[|rows|];
    assert twice[|rows|].id == nextId && twice[|rows| + 1].id == nextId + 1;
  }
}
