/** The schedule as the service exchanges it: a dictionary keyed by employee id,
    then day name, then shift name (api/app/services/genetic_algorithm.py:61,
    api/app/routers/escalas.py:81). The engine reads it cell by cell and fails with
    a missing key (Python's KeyError) when an employee, day or shift is absent. */
module Wire {
  import opened Wrappers
  import opened Constants
  import opened Config
  import opened ScheduleModel

  type WireDay = map<string, int>
  type WireRow = map<string, WireDay>
  type WireSchedule = map<int, WireRow>

  /** Every shift name is a key of the day. */
  predicate HasDay(day: WireDay) {
    forall t :: 0 <= t < NUM_SHIFTS ==> SHIFTS[t] in day
  }

  /** Every day name is a key of the week, and every such day has every shift. */
  predicate HasRow(row: WireRow) {
    forall d :: 0 <= d < NUM_DAYS ==> DAYS[d] in row && HasDay(row[DAYS[d]])
  }

  /** Everything the checker reads for an employee with this id is present. */
  predicate HasKeys(ws: WireSchedule, id: int) {
    id in ws && HasRow(ws[id])
  }

  /** The cells of a week, read in day and shift order. */
  function Cells(row: WireRow): (r: Row)
    requires HasRow(row)
    ensures DenseRow(r)
  {
    seq(NUM_DAYS, d requires 0 <= d < NUM_DAYS => seq(NUM_SHIFTS, t requires 0 <= t < NUM_SHIFTS => row[DAYS[d]][SHIFTS[t]]))
  }

  /** The dense schedule the checker sees: employee i reads the entry of its id.
      It is absent exactly when a key the checker reads is missing. */
  function Decode(ws: WireSchedule, employees: seq<Employee>): (r: Option<Schedule>)
    ensures r.Some? <==> forall i :: 0 <= i < |employees| ==> HasKeys(ws, employees[i].id)
    ensures r.Some? ==> Dense(r.value, |employees|)
    ensures r.Some? ==> forall i, d, t :: 0 <= i < |employees| && 0 <= d < NUM_DAYS && 0 <= t < NUM_SHIFTS ==>
              r.value[i][d][t] == ws[employees[i].id][DAYS[d]][SHIFTS[t]]
  {
    if forall i :: 0 <= i < |employees| ==> HasKeys(ws, employees[i].id) then
      Some(seq(|employees|, i requires 0 <= i < |employees| => Cells(ws[employees[i].id])))
    else
      None
  }

  /** The dictionary that maps names[i] to values[i]. */
  function Zip<T>(names: seq<string>, values: seq<T>): (m: map<string, T>)
    requires |names| == |values| && Distinct(names)
    ensures forall i :: 0 <= i < |names| ==> names[i] in m
  {
    map i | 0 <= i < |names| :: names[i] := values[i]
  }

  /** The entry of names[i] is values[i]. */
  lemma ZipAt<T>(names: seq<string>, values: seq<T>, i: nat)
    requires |names| == |values| && Distinct(names) && i < |names|
    ensures Zip(names, values)[names[i]] == values[i]
  {
    var m := Zip(names, values);
    var j :| 0 <= j < |names| && names[j] == names[i] && m[names[i]] == values[j];
  }

  /** A day as a dictionary keyed by shift name. */
  function EncodeDay(day: seq<int>): (m: WireDay)
    requires |day| == NUM_SHIFTS
    ensures HasDay(m)
  {
    WeekLayout();
    Zip(SHIFTS, day)
  }

  /** A week as a dictionary keyed by day name. */
  function EncodeRow(row: Row): (m: WireRow)
    requires DenseRow(row)
    ensures HasRow(m)
  {
    WeekLayout();
    Zip(DAYS, seq(NUM_DAYS, d requires 0 <= d < NUM_DAYS => EncodeDay(row[d])))
  }

  /** The entry of shift t of an encoded day is the day's cell t. */
  lemma EncodeDayAt(day: seq<int>, t: nat)
    requires |day| == NUM_SHIFTS && t < NUM_SHIFTS
    ensures EncodeDay(day)[SHIFTS[t]] == day[t]
  {
    WeekLayout();
    ZipAt(SHIFTS, day, t);
  }

  /** The entry of day d of an encoded week is the encoding of the week's day d. */
  lemma EncodeRowAt(row: Row, d: nat)
    requires DenseRow(row) && d < NUM_DAYS
    ensures EncodeRow(row)[DAYS[d]] == EncodeDay(row[d])
  {
    WeekLayout();
    ZipAt(DAYS, seq(NUM_DAYS, d requires 0 <= d < NUM_DAYS => EncodeDay(row[d])), d);
  }

  /** Encoding a week and reading its cells back gives the week. */
  lemma CellsOfEncodeRow(row: Row)
    requires DenseRow(row)
    ensures Cells(EncodeRow(row)) == row
  {
    var c := Cells(EncodeRow(row));
    forall d | 0 <= d < NUM_DAYS ensures c[d] == row[d] {
      EncodeRowAt(row, d);
      forall t | 0 <= t < NUM_SHIFTS ensures c[d][t] == row[d][t] {
        EncodeDayAt(row[d], t);
      }
    }
  }

  /** Among the first k employees, none after i has i's id. */
  predicate LastWithId(employees: seq<Employee>, i: nat, k: nat)
    requires i < k <= |employees|
  {
    forall j :: i < j < k ==> employees[j].id != employees[i].id
  }

  /** No two employees share an id. */
  predicate DistinctIds(employees: seq<Employee>) {
    forall i, j :: 0 <= i < j < |employees| ==> employees[i].id != employees[j].id
  }

  /** The ids of the first k employees are those of the first k - 1 and one more. */
  lemma IdsOfPrefix(employees: seq<Employee>, k: nat)
    requires 0 < k <= |employees|
    ensures (set j | 0 <= j < k :: employees[j].id)
         == (set j | 0 <= j < k - 1 :: employees[j].id) + {employees[k - 1].id}
  {
    var a := set j | 0 <= j < k :: employees[j].id;
    var b := (set j | 0 <= j < k - 1 :: employees[j].id) + {employees[k - 1].id};
    forall x | x in a ensures x in b {
      var j :| 0 <= j < k && employees[j].id == x;
    }
    forall x | x in b ensures x in a {
      if x != employees[k - 1].id {
        var j :| 0 <= j < k - 1 && employees[j].id == x;
      }
    }
  }

  /** The dictionary of the first k employees' weeks, built in employee order, so
      that a later employee overwrites an earlier one with the same id. */
  function EncodeUpTo(s: Schedule, employees: seq<Employee>, k: nat): (ws: WireSchedule)
    requires Dense(s, |employees|) && k <= |employees|
    ensures ws.Keys == set i | 0 <= i < k :: employees[i].id
    ensures forall i :: 0 <= i < k && LastWithId(employees, i, k) ==> ws[employees[i].id] == EncodeRow(s[i])
  {
    if k == 0 then map[]
    else
      var prev := EncodeUpTo(s, employees, k - 1);
      var ws := prev[employees[k - 1].id := EncodeRow(s[k - 1])];
      IdsOfPrefix(employees, k);
      EncodeStep(s, employees, k, prev, ws);
      ws
  }

  /** Overwriting the entry of employee k - 1 keeps the entries of the employees
      before it that are the last with their id. */
  lemma EncodeStep(s: Schedule, employees: seq<Employee>, k: nat, prev: WireSchedule, ws: WireSchedule)
    requires Dense(s, |employees|) && 0 < k <= |employees|
    requires forall j :: 0 <= j < k - 1 && LastWithId(employees, j, k - 1) ==> employees[j].id in prev && prev[employees[j].id] == EncodeRow(s[j])
    requires ws == prev[employees[k - 1].id := EncodeRow(s[k - 1])]
    ensures forall j :: 0 <= j < k && LastWithId(employees, j, k) ==> employees[j].id in ws && ws[employees[j].id] == EncodeRow(s[j])
  {
    forall j | 0 <= j < k && LastWithId(employees, j, k) ensures employees[j].id in ws && ws[employees[j].id] == EncodeRow(s[j]) {
      if j < k - 1 {
        assert employees[k - 1].id != employees[j].id;
        assert LastWithId(employees, j, k - 1);
      }
    }
  }

  /** The schedule as the service returns it: one entry per employee id. */
  function Encode(s: Schedule, employees: seq<Employee>): (ws: WireSchedule)
    requires Dense(s, |employees|)
    ensures ws.Keys == set i | 0 <= i < |employees| :: employees[i].id
    ensures forall i :: 0 <= i < |employees| && LastWithId(employees, i, |employees|) ==> ws[employees[i].id] == EncodeRow(s[i])
  {
    EncodeUpTo(s, employees, |employees|)
  }

  /** With distinct ids, decoding an encoded schedule gives the schedule back. */
  lemma DecodeEncode(s: Schedule, employees: seq<Employee>)
    requires Dense(s, |employees|) && DistinctIds(employees)
    ensures Decode(Encode(s, employees), employees) == Some(s)
  {
    var ws := Encode(s, employees);
    forall i | 0 <= i < |employees| ensures HasKeys(ws, employees[i].id) && Cells(ws[employees[i].id]) == s[i] {
      assert LastWithId(employees, i, |employees|);
      assert employees[i].id in ws;
      CellsOfEncodeRow(s[i]);
    }
    var r := Decode(ws, employees);
    assert r.value == s;
  }

  /** Two employees sharing an id read the same week, so a schedule that tells
      them apart does not survive the round trip. */
  lemma SharedIdSharesWeek(ws: WireSchedule, employees: seq<Employee>, i: nat, j: nat)
    requires i < |employees| && j < |employees| && employees[i].id == employees[j].id
    requires Decode(ws, employees).Some?
    ensures Decode(ws, employees).value[i] == Decode(ws, employees).value[j]
  {
  }
}
