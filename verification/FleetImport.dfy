/**
  Bulk upload of machines and loggers (`fleet-import.service.ts`): a plan built from the workbook and
  the register, and an apply that rebuilds the plan and writes it in one transaction. What a cell
  parses to is part of its row, except the commissioning date, whose text is read here.
 */
module FleetImport {
  import opened CalendarDates
  import opened Options

  const CLIENT: string := "client"

  datatype Details = Details(
    name: string, plantId: Option<int>, classSlug: Option<string>, manufacturer: Option<string>,
      modelNumber: Option<string>,
    serialNumber: Option<string>, description: Option<string>, commissioned: Option<string>, serviceHours: Option<int>)

  datatype Key = Key(sourceSystem: string, code: string)

  datatype Machine = Machine(retired: bool, details: Details)

  datatype Plant = Plant(id: int, retired: bool)

  datatype DeviceState = InStock | Assigned | Withdrawn

  /** A logger of the account, and the code of the machine it is claimed to. */
  datatype Device = Device(state: DeviceState, machine: Option<string>)

  /** Sites are by their code in lower case. */
  datatype Register = Register(plants: map<string, Plant>, machines: map<Key, Machine>, devices: map<string, Device>)

  /**
    A machine row, its site in lower case; `codeOk` and `hoursOk` say whether those cells are well formed,
    or blank where allowed.
   */
  datatype MachineRow = MachineRow(row: int, code: string, codeOk: bool, site: Option<string>, hoursOk: bool,
      details: Details)

  datatype LoggerRow = LoggerRow(row: int, imei: string, code: string, sourceSystem: Option<string>)

  datatype Workbook = Workbook(machines: seq<MachineRow>, loggers: seq<LoggerRow>)

  // ------------------------------------------------------------------ one machine row

  /** A conflict names the fields that differ, and whether the machine is retired. */
  datatype MachineFate = Create(wanted: Details) | Unchanged | Conflict(fields: seq<string>, retired: bool) | Bad

  predicate CodeSeen(rows: seq<MachineRow>, n: nat, code: string)
    requires n <= |rows|
  {
    exists j :: 0 <= j < n && rows[j].codeOk && rows[j].code == code
  }

  /** Blank, or a date. */
  predicate DateOk(commissioned: Option<string>) {
    commissioned.Some? ==> IsDate(commissioned.value)
  }

  predicate SiteOk(plants: map<string, Plant>, site: Option<string>) {
    site.Some? ==> site.value in plants && !plants[site.value].retired
  }

  function Wanted(plants: map<string, Plant>, row: MachineRow): Details
    requires SiteOk(plants, row.site)
  {
    row.details.(plantId := if row.site.Some? then Some(plants[row.site.value].id) else None)
  }

  /** A blank cell is not compared. */
  function Differs<T(==)>(field: string, have: Option<T>, want: Option<T>): seq<string> {
    if want.Some? && have != want then [field] else []
  }

  function DifferingFields(have: Details, want: Details): seq<string> {
    Differs("name", Some(have.name), Some(want.name)) + Differs("site", have.plantId, want.plantId)
    + Differs("class", have.classSlug, want.classSlug) + Differs("manufacturer", have.manufacturer, want.manufacturer)
    + Differs("model number", have.modelNumber, want.modelNumber)
      + Differs("serial number", have.serialNumber, want.serialNumber)
    + Differs("description", have.description, want.description)
      + Differs("commissioned date", have.commissioned, want.commissioned)
    + Differs("service interval", have.serviceHours, want.serviceHours)
  }

  /** A blank cell says nothing; every other cell must be what the register has. */
  lemma NoDifference(have: Details, want: Details)
    ensures DifferingFields(have, want) == [] <==>
      && have.name == want.name
      && want.plantId in [None, have.plantId] && want.classSlug in [None, have.classSlug]
      && want.manufacturer in [None, have.manufacturer] && want.modelNumber in [None, have.modelNumber]
      && want.serialNumber in [None, have.serialNumber] && want.description in [None, have.description]
      && want.commissioned in [None, have.commissioned] && want.serviceHours in [None, have.serviceHours]
  {
  }

  function FateOfMachine(register: Register, rows: seq<MachineRow>, i: nat): MachineFate
    requires i < |rows|
  {
    var row := rows[i];
    if !row.codeOk || CodeSeen(rows, i, row.code) || row.details.name == "" || !SiteOk(register.plants, row.site)
        || !DateOk(row.details.commissioned) || !row.hoursOk then Bad
    else
      var key, wanted := Key(CLIENT, row.code), Wanted(register.plants, row);
      if key !in register.machines then Create(wanted)
      else
        var existing, fields := register.machines[key], DifferingFields(register.machines[key].details, wanted);
        if existing.retired || fields != [] then Conflict(fields, existing.retired) else Unchanged
  }

  /** The sheet's own key column: an earlier row that could be read has the same code. */
  ghost predicate ListedBefore(rows: seq<MachineRow>, i: nat)
    requires i < |rows|
  {
    exists j: nat :: j < i && rows[j].codeOk && rows[j].code == rows[i].code
  }

  /** What keeps a row out: its own cells, a site unknown or closed, or a code already listed. */
  ghost predicate Faulty(register: Register, rows: seq<MachineRow>, i: nat)
    requires i < |rows|
  {
    var row := rows[i];
    || !row.codeOk || !row.hoursOk || row.details.name == "" || ListedBefore(rows, i)
    || (row.details.commissioned.Some? && !IsDate(row.details.commissioned.value))
    || exists site :: row.site == Some(site) && (site in register.plants ==> register.plants[site].retired)
  }

  /**
    A faulty row is in error and no other; a good one is created exactly when the client's register has
    no machine of its code, with the row's cells and the identity of its site; what it is otherwise
    depends on the machine that is there, retired or differing or neither.
   */
  lemma MachineFateExactly(register: Register, rows: seq<MachineRow>, i: nat)
    requires i < |rows|
    ensures var row, fate := rows[i], FateOfMachine(register, rows, i);
            var known := Key("client", row.code) in register.machines;
            && (fate.Bad? <==> Faulty(register, rows, i))
            && (fate.Create? <==> !Faulty(register, rows, i) && !known)
            && (fate.Create? ==>
                  && fate.wanted.(plantId := None) == row.details.(plantId := None)
                  && (row.site.None? <==> fate.wanted.plantId.None?)
                  && (row.site.Some? ==>
                        && row.site.value in register.plants && !register.plants[row.site.value].retired
                        && fate.wanted.plantId == Some(register.plants[row.site.value].id)))
            && (known && !fate.Bad? ==>
                  var machine := register.machines[Key("client", row.code)];
                  var wanted := Wanted(register.plants, row);
                  && (fate.Unchanged? <==> !machine.retired && DifferingFields(machine.details, wanted) == [])
                  && (fate.Conflict? ==>
                        && fate.retired == machine.retired && fate.fields == DifferingFields(machine.details, wanted)
                        && (fate.retired || fate.fields != [])))
  {
    hide DifferingFields;
    var row := rows[i];
    assert CodeSeen(rows, i, row.code) <==> ListedBefore(rows, i);
    if row.site.Some? {
      assert row.site == Some(row.site.value);
    }
  }

  ghost predicate Unlike<T>(have: Option<T>, want: Option<T>) {
    want.Some? && have != want
  }

  /** A field is named exactly when its cell is not blank and not what the register has. */
  lemma NamesDiffering(have: Details, want: Details, field: string)
    ensures field in DifferingFields(have, want) <==>
              || (field == "name" && have.name != want.name)
              || (field == "site" && Unlike(have.plantId, want.plantId))
              || (field == "class" && Unlike(have.classSlug, want.classSlug))
              || (field == "manufacturer" && Unlike(have.manufacturer, want.manufacturer))
              || (field == "model number" && Unlike(have.modelNumber, want.modelNumber))
              || (field == "serial number" && Unlike(have.serialNumber, want.serialNumber))
              || (field == "description" && Unlike(have.description, want.description))
              || (field == "commissioned date" && Unlike(have.commissioned, want.commissioned))
              || (field == "service interval" && Unlike(have.serviceHours, want.serviceHours))
  {
    hide Differs, Unlike;
    NameDiffers("name", Some(have.name), Some(want.name), field);
    assert Unlike(Some(have.name), Some(want.name)) <==> have.name != want.name by { Names(have.name, want.name); }
    NameDiffers("site", have.plantId, want.plantId, field);
    NameDiffers("class", have.classSlug, want.classSlug, field);
    NameDiffers("manufacturer", have.manufacturer, want.manufacturer, field);
    NameDiffers("model number", have.modelNumber, want.modelNumber, field);
    NameDiffers("serial number", have.serialNumber, want.serialNumber, field);
    NameDiffers("description", have.description, want.description, field);
    NameDiffers("commissioned date", have.commissioned, want.commissioned, field);
    NameDiffers("service interval", have.serviceHours, want.serviceHours, field);
  }

  lemma NameDiffers<T>(name: string, have: Option<T>, want: Option<T>, field: string)
    ensures field in Differs(name, have, want) <==> field == name && Unlike(have, want)
  {
  }

  lemma Names(have: string, want: string)
    ensures Unlike(Some(have), Some(want)) <==> have != want
  {
  }

  datatype NewMachine = NewMachine(row: int, code: string, details: Details)

  datatype MachineConflict = MachineConflict(row: int, code: string, fields: seq<string>, retired: bool)

  datatype MachinePlan = MachinePlan(create: seq<NewMachine>, same: int, conflicts: seq<MachineConflict>,
      errors: seq<int>)

  function Filed(plan: MachinePlan, row: MachineRow, fate: MachineFate): MachinePlan {
    match fate
    case Create(wanted) => MachinePlan(plan.create + [NewMachine(row.row, row.code, wanted)], plan.same,
        plan.conflicts, plan.errors)
    case Unchanged => MachinePlan(plan.create, plan.same + 1, plan.conflicts, plan.errors)
    case Conflict(fields, retired) =>
      MachinePlan(plan.create, plan.same, plan.conflicts + [MachineConflict(row.row, row.code, fields, retired)],
        plan.errors)
    case Bad => MachinePlan(plan.create, plan.same, plan.conflicts, plan.errors + [row.row])
  }

  function MachinesPlanned(register: Register, rows: seq<MachineRow>, n: nat): MachinePlan
    requires n <= |rows|
  {
    if n == 0 then MachinePlan([], 0, [], [])
    else Filed(MachinesPlanned(register, rows, n - 1), rows[n - 1], FateOfMachine(register, rows, n - 1))
  }

  /**
    The machines a logger row of the same workbook may name: every row without an error, whatever the
    register says of it.
   */
  predicate WillExist(register: Register, rows: seq<MachineRow>, key: Key) {
    exists j :: 0 <= j < |rows| && FateOfMachine(register, rows, j) != Bad && key == Key(CLIENT, rows[j].code)
  }

  // ------------------------------------------------------------------ one logger row

  datatype ConflictReason = NotInThisAccount | NotAssigned | ClaimedToAnotherMachine

  datatype LoggerFate = Claim(key: Key) | AlreadyClaimed | LoggerConflict(reason: ConflictReason) | LoggerBad

  predicate ImeiSeen(rows: seq<LoggerRow>, n: nat, imei: string)
    requires n <= |rows|
  {
    exists j :: 0 <= j < n && rows[j].code != "" && rows[j].imei == imei
  }

  function KeyOf(row: LoggerRow): Key {
    Key(if row.sourceSystem.Some? then row.sourceSystem.value else CLIENT, row.code)
  }

  predicate Usable(register: Register, key: Key) {
    key in register.machines && !register.machines[key].retired
  }

  function FateOfLogger(register: Register, workbook: Workbook, i: nat): LoggerFate
    requires i < |workbook.loggers|
  {
    var row := workbook.loggers[i];
    var key := KeyOf(row);
    if row.imei == "" || row.code == "" || ImeiSeen(workbook.loggers, i, row.imei) then LoggerBad
    else if !WillExist(register, workbook.machines, key) && !Usable(register, key) then LoggerBad
    else if row.imei !in register.devices then LoggerConflict(NotInThisAccount)
    else if register.devices[row.imei].state != Assigned then LoggerConflict(NotAssigned)
    else
      var machine := register.devices[row.imei].machine;
      if machine.None? then Claim(key)
      else if machine.value == row.code then AlreadyClaimed
      else LoggerConflict(ClaimedToAnotherMachine)
  }

  /** The machine a logger row names is one the register can use or a row of the workbook without a fault. */
  ghost predicate Nameable(register: Register, rows: seq<MachineRow>, key: Key) {
    || (key in register.machines && !register.machines[key].retired)
    || (key.sourceSystem == "client"
        && exists j: nat :: j < |rows| && !Faulty(register, rows, j) && rows[j].code == key.code)
  }

  /**
    A logger row is in error exactly when a cell it needs is blank, its logger was listed before, or its
    machine cannot be named; otherwise the logger decides: claimed when it is the account's, assigned
    and free, and already claimed when it is on this machine.
   */
  lemma LoggerFateExactly(register: Register, workbook: Workbook, i: nat)
    requires i < |workbook.loggers|
    ensures var row, fate := workbook.loggers[i], FateOfLogger(register, workbook, i);
            var key := Key(if row.sourceSystem.None? then "client" else row.sourceSystem.value, row.code);
            var device := if row.imei in register.devices then Some(register.devices[row.imei]) else None;
            var free := device.Some? && device.value.state.Assigned? && device.value.machine.None?;
            var fitted := device.Some? && device.value.state.Assigned? && device.value.machine.Some?;
            && (fate.LoggerBad? <==>
                  || row.imei == "" || row.code == "" || !Nameable(register, workbook.machines, key)
                  || exists j: nat :: j < i && workbook.loggers[j].imei == row.imei && workbook.loggers[j].code != "")
            && (!fate.LoggerBad? ==>
                  && (fate == Claim(key) <==> free)
                  && (fate.Claim? ==> fate.key == key)
                  && (fate == AlreadyClaimed <==> fitted && device.value.machine == Some(row.code))
                  && (fate == LoggerConflict(NotInThisAccount) <==> device.None?)
                  && (fate == LoggerConflict(NotAssigned) <==> device.Some? && !device.value.state.Assigned?)
                  && (fate == LoggerConflict(ClaimedToAnotherMachine) <==>
                        fitted && device.value.machine != Some(row.code)))
  {
    hide FateOfMachine, Faulty;
    var row, key := workbook.loggers[i], KeyOf(workbook.loggers[i]);
    var rows := workbook.machines;
    forall j: nat | j < |rows| ensures FateOfMachine(register, rows, j) == Bad <==> Faulty(register, rows, j) {
      MachineFateExactly(register, rows, j);
    }
    assert WillExist(register, rows, key) || Usable(register, key) <==> Nameable(register, rows, key);
    assert ImeiSeen(workbook.loggers, i, row.imei) <==>
        exists j: nat :: j < i && workbook.loggers[j].imei == row.imei && workbook.loggers[j].code != "";
  }

  datatype NewClaim = NewClaim(row: int, imei: string, code: string)

  datatype LoggerConflictRow = LoggerConflictRow(row: int, imei: string, reason: ConflictReason)

  datatype LoggerPlan = LoggerPlan(claim: seq<NewClaim>, already: int, conflicts: seq<LoggerConflictRow>,
      errors: seq<int>)

  function LoggerFiled(plan: LoggerPlan, row: LoggerRow, fate: LoggerFate): LoggerPlan {
    match fate
    case Claim(key) => LoggerPlan(plan.claim + [NewClaim(row.row, row.imei, key.code)], plan.already, plan.conflicts,
        plan.errors)
    case AlreadyClaimed => LoggerPlan(plan.claim, plan.already + 1, plan.conflicts, plan.errors)
    case LoggerConflict(reason) =>
      LoggerPlan(plan.claim, plan.already, plan.conflicts + [LoggerConflictRow(row.row, row.imei, reason)], plan.errors)
    case LoggerBad => LoggerPlan(plan.claim, plan.already, plan.conflicts, plan.errors + [row.row])
  }

  function LoggersPlanned(register: Register, workbook: Workbook, n: nat): LoggerPlan
    requires n <= |workbook.loggers|
  {
    if n == 0 then LoggerPlan([], 0, [], [])
    else LoggerFiled(LoggersPlanned(register, workbook, n - 1), workbook.loggers[n - 1],
        FateOfLogger(register, workbook, n - 1))
  }

  datatype Plan = Plan(machines: MachinePlan, loggers: LoggerPlan)

  function PlanOf(register: Register, workbook: Workbook): Plan {
    Plan(MachinesPlanned(register, workbook.machines, |workbook.machines|),
      LoggersPlanned(register, workbook, |workbook.loggers|))
  }

  predicate CanApply(plan: Plan) {
    plan.machines.errors == [] && plan.loggers.errors == []
  }

  ghost predicate RowsDiffer(rows: seq<MachineRow>) {
    forall i, j :: 0 <= i < j < |rows| ==> rows[i].row != rows[j].row
  }

  ghost predicate LoggerRowsDiffer(rows: seq<LoggerRow>) {
    forall i, j :: 0 <= i < j < |rows| ==> rows[i].row != rows[j].row
  }

  ghost predicate ListsRow(plan: MachinePlan, row: int, fate: MachineFate) {
    && (fate.Create? <==> exists e :: e in plan.create && e.row == row)
    && (fate.Conflict? <==> exists c :: c in plan.conflicts && c.row == row)
    && (fate == Bad <==> row in plan.errors)
  }

  ghost predicate ListsLogger(plan: LoggerPlan, row: int, fate: LoggerFate) {
    && (fate.Claim? <==> exists d :: d in plan.claim && d.row == row)
    && (fate.LoggerConflict? <==> exists c :: c in plan.conflicts && c.row == row)
    && (fate == LoggerBad <==> row in plan.errors)
  }

  lemma FiledRow(plan: MachinePlan, row: MachineRow, fate: MachineFate, other: int, its: MachineFate)
    requires other != row.row ==> ListsRow(plan, other, its)
    requires other == row.row ==> its == fate && ListsRow(plan, other, Unchanged)
    ensures ListsRow(Filed(plan, row, fate), other, its)
  {
    var after := Filed(plan, row, fate);
    if fate.Create? {
      assert after.create[|plan.create|].row == row.row;
    } else if fate.Conflict? {
      assert after.conflicts[|plan.conflicts|].row == row.row;
    }
    forall e | e in plan.create ensures e in after.create {
    }
    forall c | c in plan.conflicts ensures c in after.conflicts {
    }
  }

  lemma FiledLogger(plan: LoggerPlan, row: LoggerRow, fate: LoggerFate, other: int, its: LoggerFate)
    requires other != row.row ==> ListsLogger(plan, other, its)
    requires other == row.row ==> its == fate && ListsLogger(plan, other, AlreadyClaimed)
    ensures ListsLogger(LoggerFiled(plan, row, fate), other, its)
  {
    var after := LoggerFiled(plan, row, fate);
    if fate.Claim? {
      assert after.claim[|plan.claim|].row == row.row;
    } else if fate.LoggerConflict? {
      assert after.conflicts[|plan.conflicts|].row == row.row;
    }
    forall d | d in plan.claim ensures d in after.claim {
    }
    forall c | c in plan.conflicts ensures c in after.conflicts {
    }
  }

  /** A machine row's number is in the list of its fate and in no other. */
  lemma {:induction false} MachineRowFiled(register: Register, rows: seq<MachineRow>, n: nat, i: nat)
    requires n <= |rows| && i < |rows| && RowsDiffer(rows)
    ensures ListsRow(MachinesPlanned(register, rows, n), rows[i].row,
              if i < n then FateOfMachine(register, rows, i) else Unchanged)
  {
    hide FateOfMachine, Filed, ListsRow;
    if n == 0 {
      NothingListed(rows[i].row);
    } else {
      MachineRowFiled(register, rows, n - 1, i);
      FiledRow(MachinesPlanned(register, rows, n - 1), rows[n - 1], FateOfMachine(register, rows, n - 1),
               rows[i].row, if i < n then FateOfMachine(register, rows, i) else Unchanged);
    }
  }

  lemma NothingListed(row: int)
    ensures ListsRow(MachinePlan([], 0, [], []), row, Unchanged)
              && ListsLogger(LoggerPlan([], 0, [], []), row, AlreadyClaimed)
  {
  }

  lemma {:induction false} LoggerRowFiled(register: Register, workbook: Workbook, n: nat, i: nat)
    requires n <= |workbook.loggers| && i < |workbook.loggers| && LoggerRowsDiffer(workbook.loggers)
    ensures ListsLogger(LoggersPlanned(register, workbook, n), workbook.loggers[i].row,
                        if i < n then FateOfLogger(register, workbook, i) else AlreadyClaimed)
  {
    hide FateOfLogger, LoggerFiled, ListsLogger;
    var rows := workbook.loggers;
    if n == 0 {
      NothingListed(rows[i].row);
    } else {
      LoggerRowFiled(register, workbook, n - 1, i);
      FiledLogger(LoggersPlanned(register, workbook, n - 1), rows[n - 1], FateOfLogger(register, workbook, n - 1),
                  rows[i].row, if i < n then FateOfLogger(register, workbook, i) else AlreadyClaimed);
    }
  }

  lemma {:induction false} RowsCounted(register: Register, workbook: Workbook, n: nat, m: nat)
    requires n <= |workbook.machines| && m <= |workbook.loggers|
    ensures var p := MachinesPlanned(register, workbook.machines, n);
            |p.create| + p.same + |p.conflicts| + |p.errors| == n && p.same >= 0
    ensures var p := LoggersPlanned(register, workbook, m);
            |p.claim| + p.already + |p.conflicts| + |p.errors| == m && p.already >= 0
  {
    hide FateOfMachine, FateOfLogger;
    if n > 0 {
      RowsCounted(register, workbook, n - 1, m);
    } else if m > 0 {
      RowsCounted(register, workbook, n, m - 1);
    }
  }

  /**
    Each row of a workbook is in the plan's list of its own fate and in no other, once: the lists and
    the two counts add up to the rows.
   */
  lemma EveryRowFiled(register: Register, workbook: Workbook)
    requires RowsDiffer(workbook.machines) && LoggerRowsDiffer(workbook.loggers)
    ensures var plan := PlanOf(register, workbook);
            && (forall i: nat :: i < |workbook.machines| ==>
                  ListsRow(plan.machines, workbook.machines[i].row, FateOfMachine(register, workbook.machines, i)))
            && (forall i: nat :: i < |workbook.loggers| ==>
                  ListsLogger(plan.loggers, workbook.loggers[i].row, FateOfLogger(register, workbook, i)))
            && |plan.machines.create| + plan.machines.same + |plan.machines.conflicts| + |plan.machines.errors|
              == |workbook.machines|
            && |plan.loggers.claim| + plan.loggers.already + |plan.loggers.conflicts| + |plan.loggers.errors|
              == |workbook.loggers|
  {
    hide FateOfMachine, FateOfLogger, ListsRow, ListsLogger, MachinesPlanned, LoggersPlanned;
    var rows, loggers := workbook.machines, workbook.loggers;
    forall i: nat | i < |rows|
        ensures ListsRow(MachinesPlanned(register, rows, |rows|), rows[i].row, FateOfMachine(register, rows, i)) {
      MachineRowFiled(register, rows, |rows|, i);
    }
    forall i: nat | i < |loggers|
      ensures ListsLogger(LoggersPlanned(register, workbook, |loggers|), loggers[i].row,
                FateOfLogger(register, workbook, i))
    {
      LoggerRowFiled(register, workbook, |loggers|, i);
    }
    RowsCounted(register, workbook, |rows|, |loggers|);
  }

  // ------------------------------------------------------------------ applying it

  /** A machine as created and read back. */
  function Stored(details: Details): Details {
    details.(commissioned := if details.commissioned.Some? then Some(ReadsBackAs(details.commissioned.value)) else None)
  }

  function MachinesAfter(machines: map<Key, Machine>, create: seq<NewMachine>): map<Key, Machine> {
    if create == [] then machines
    else
      var e := create[|create| - 1];
      MachinesAfter(machines, create[..|create| - 1])[Key(CLIENT, e.code) := Machine(false, Stored(e.details))]
  }

  function DevicesAfter(devices: map<string, Device>, claim: seq<NewClaim>): map<string, Device> {
    if claim == [] then devices
    else
      var d := claim[|claim| - 1];
      DevicesAfter(devices, claim[..|claim| - 1])[d.imei := Device(Assigned, Some(d.code))]
  }

  function After(register: Register, plan: Plan): Register {
    Register(register.plants, MachinesAfter(register.machines, plan.machines.create),
      DevicesAfter(register.devices, plan.loggers.claim))
  }

  // ------------------------------------------------------------------ what is created and claimed

  lemma {:induction false} Creations(register: Register, rows: seq<MachineRow>, n: nat, e: NewMachine)
    requires n <= |rows|
    ensures e in MachinesPlanned(register, rows, n).create
       <==> exists j ::
              0 <= j < n && FateOfMachine(register, rows, j) == Create(e.details)
              && e == NewMachine(rows[j].row, rows[j].code, e.details)
  {
    hide FateOfMachine;
    if n == 0 {
    } else {
      Creations(register, rows, n - 1, e);
    }
  }

  lemma {:induction false} Claims(register: Register, workbook: Workbook, n: nat, d: NewClaim)
    requires n <= |workbook.loggers|
    ensures d in LoggersPlanned(register, workbook, n).claim
       <==> exists j :: 0 <= j < n && FateOfLogger(register, workbook, j).Claim?
              && d == NewClaim(workbook.loggers[j].row, workbook.loggers[j].imei, workbook.loggers[j].code)
  {
    hide WillExist, Usable, ImeiSeen;
    if n == 0 {
    } else {
      Claims(register, workbook, n - 1, d);
    }
  }

  /** A row that is created is the only one of the workbook with its code. */
  lemma CodesDiffer(register: Register, rows: seq<MachineRow>, i: nat, j: nat)
    requires i < j < |rows| && FateOfMachine(register, rows, i) != Bad && FateOfMachine(register, rows, j) != Bad
    ensures rows[i].code != rows[j].code
  {
    assert CodeSeen(rows, j, rows[i].code);
  }

  lemma ImeisDiffer(register: Register, workbook: Workbook, i: nat, j: nat)
    requires i < j < |workbook.loggers| && FateOfLogger(register, workbook, i) != LoggerBad
              && FateOfLogger(register, workbook, j) != LoggerBad
    ensures workbook.loggers[i].imei != workbook.loggers[j].imei
  {
    hide WillExist, Usable;
    assert ImeiSeen(workbook.loggers, j, workbook.loggers[i].imei);
  }

  lemma {:induction false} NoBadRows(register: Register, rows: seq<MachineRow>, n: nat, i: nat)
    requires n <= |rows| && MachinesPlanned(register, rows, n).errors == [] && i < n
    ensures FateOfMachine(register, rows, i) != Bad
  {
    hide FateOfMachine;
    if i < n - 1 {
      NoBadRows(register, rows, n - 1, i);
    }
  }

  lemma {:induction false} NoBadLoggers(register: Register, workbook: Workbook, n: nat, i: nat)
    requires n <= |workbook.loggers| && LoggersPlanned(register, workbook, n).errors == [] && i < n
    ensures FateOfLogger(register, workbook, i) != LoggerBad
  {
    hide FateOfLogger;
    if i < n - 1 {
      NoBadLoggers(register, workbook, n - 1, i);
    }
  }

  ghost predicate CreatesCode(create: seq<NewMachine>, code: string) {
    exists e :: e in create && e.code == code
  }

  lemma {:induction false} MachinesAdded(machines: map<Key, Machine>, create: seq<NewMachine>, key: Key)
    ensures !(key.sourceSystem == CLIENT && CreatesCode(create, key.code)) ==>
      (key in MachinesAfter(machines, create) <==> key in machines)
      && (key in machines ==> MachinesAfter(machines, create)[key] == machines[key])
    ensures key.sourceSystem == CLIENT && CreatesCode(create, key.code) ==>
      key in MachinesAfter(machines, create)
      && exists e ::
           e in create && e.code == key.code
           && MachinesAfter(machines, create)[key] == Machine(false, Stored(e.details))
  {
    if create == [] {
    } else {
      var n := |create| - 1;
      assert create == create[..n] + [create[n]];
      MachinesAdded(machines, create[..n], key);
      assert create[n] in create;
    }
  }

  ghost predicate ClaimsImei(claim: seq<NewClaim>, imei: string) {
    exists d :: d in claim && d.imei == imei
  }

  lemma {:induction false} DevicesClaimed(devices: map<string, Device>, claim: seq<NewClaim>, imei: string)
    ensures !ClaimsImei(claim, imei) ==>
      (imei in DevicesAfter(devices, claim) <==> imei in devices)
      && (imei in devices ==> DevicesAfter(devices, claim)[imei] == devices[imei])
    ensures ClaimsImei(claim, imei) ==>
      imei in DevicesAfter(devices, claim)
      && exists d ::
           d in claim && d.imei == imei
           && DevicesAfter(devices, claim)[imei] == Device(Assigned, Some(d.code))
  {
    if claim == [] {
    } else {
      var n := |claim| - 1;
      assert claim == claim[..n] + [claim[n]];
      DevicesClaimed(devices, claim[..n], imei);
      assert claim[n] in claim;
    }
  }

  /** An import only adds: machines are new, and loggers go from free to claimed. */
  lemma OnlyAdds(register: Register, workbook: Workbook, key: Key, imei: string)
    ensures var after := After(register, PlanOf(register, workbook));
            && after.plants == register.plants
            && (key in register.machines ==> key in after.machines && after.machines[key] == register.machines[key])
            && (key in after.machines && key !in register.machines ==>
              key.sourceSystem == CLIENT && !after.machines[key].retired)
            && (imei in after.devices <==> imei in register.devices)
            && (imei in register.devices ==>
                  after.devices[imei] == register.devices[imei]
                  || (register.devices[imei] == Device(Assigned, None) && after.devices[imei].state == Assigned
                    && after.devices[imei].machine.Some?))
  {
    hide FateOfMachine, FateOfLogger;
    var plan := PlanOf(register, workbook);
    MachinesAdded(register.machines, plan.machines.create, key);
    DevicesClaimed(register.devices, plan.loggers.claim, imei);
    if key.sourceSystem == CLIENT && CreatesCode(plan.machines.create, key.code) {
      var e :| e in plan.machines.create && e.code == key.code;
      Creations(register, workbook.machines, |workbook.machines|, e);
      NotYet(register, workbook.machines, e);
    }
    if ClaimsImei(plan.loggers.claim, imei) {
      var d :| d in plan.loggers.claim && d.imei == imei;
      Claims(register, workbook, |workbook.loggers|, d);
      StillFree(register, workbook, d);
    }
  }

  lemma NotYet(register: Register, rows: seq<MachineRow>, e: NewMachine)
    requires exists j :: 0 <= j < |rows| && FateOfMachine(register, rows, j) == Create(e.details)
              && e == NewMachine(rows[j].row, rows[j].code, e.details)
    ensures Key(CLIENT, e.code) !in register.machines
  {
  }

  lemma StillFree(register: Register, workbook: Workbook, d: NewClaim)
    requires exists j :: 0 <= j < |workbook.loggers| && FateOfLogger(register, workbook, j).Claim?
               && d == NewClaim(workbook.loggers[j].row, workbook.loggers[j].imei, workbook.loggers[j].code)
    ensures d.imei in register.devices && register.devices[d.imei] == Device(Assigned, None)
  {
    hide WillExist, Usable, ImeiSeen;
  }

  // ------------------------------------------------------------------ the same workbook again

  /** The commissioning date, if any, is a day its month has. */
  predicate RoundTrips(details: Details) {
    details.commissioned.Some? ==> DayExists(details.commissioned.value)
  }

  function CountRoundTrips(create: seq<NewMachine>): int {
    if create == [] then 0
    else CountRoundTrips(create[..|create| - 1]) + if RoundTrips(create[|create| - 1].details) then 1 else 0
  }

  lemma ReadBack(details: Details)
    requires DateOk(details.commissioned)
    ensures DifferingFields(Stored(details), details) == if RoundTrips(details) then [] else ["commissioned date"]
  {
    if details.commissioned.Some? {
      ReadsBackExactly(details.commissioned.value);
    }
    hide IsDate, ReadsBackAs, DayExists;
    assert DifferingFields(Stored(details), details)
      == Differs("commissioned date", Stored(details).commissioned, details.commissioned);
  }

  lemma CreatedAsPlanned(register: Register, rows: seq<MachineRow>, i: nat)
    requires i < |rows| && FateOfMachine(register, rows, i).Create?
    ensures var key := Key(CLIENT, rows[i].code);
            var after := MachinesAfter(register.machines, MachinesPlanned(register, rows, |rows|).create);
            key in after && after[key] == Machine(false, Stored(FateOfMachine(register, rows, i).wanted))
  {
    hide FateOfMachine, MachinesAfter, MachinesPlanned, Stored;
    var create := MachinesPlanned(register, rows, |rows|).create;
    var mine := NewMachine(rows[i].row, rows[i].code, FateOfMachine(register, rows, i).wanted);
    Creations(register, rows, |rows|, mine);
    MachinesAdded(register.machines, create, Key(CLIENT, rows[i].code));
    assert mine in create && CreatesCode(create, rows[i].code);
    var e :| e in create && e.code == rows[i].code
      && MachinesAfter(register.machines, create)[Key(CLIENT, rows[i].code)] == Machine(false, Stored(e.details));
    Creations(register, rows, |rows|, e);
    var j: nat :| j < |rows| && FateOfMachine(register, rows, j) == Create(e.details)
        && e == NewMachine(rows[j].row, rows[j].code, e.details);
    if i < j {
      CodesDiffer(register, rows, i, j);
    } else if j < i {
      CodesDiffer(register, rows, j, i);
    }
  }

  lemma KeptAsItWas(register: Register, rows: seq<MachineRow>, key: Key)
    requires key in register.machines
    ensures var after := MachinesAfter(register.machines, MachinesPlanned(register, rows, |rows|).create);
            key in after && after[key] == register.machines[key]
  {
    hide FateOfMachine, MachinesAfter, MachinesPlanned;
    var create := MachinesPlanned(register, rows, |rows|).create;
    MachinesAdded(register.machines, create, key);
    if key.sourceSystem == CLIENT && CreatesCode(create, key.code) {
      var e :| e in create && e.code == key.code;
      Creations(register, rows, |rows|, e);
      NotYet(register, rows, e);
      assert false;
    }
  }

  /**
    On a second upload a machine row made the first time is unchanged if its date read back, and every
    other row is as before.
   */
  lemma MachineAgain(register: Register, rows: seq<MachineRow>, devices: map<string, Device>, i: nat)
    requires i < |rows|
    ensures var after := Register(register.plants,
              MachinesAfter(register.machines, MachinesPlanned(register, rows, |rows|).create), devices);
            var first, second := FateOfMachine(register, rows, i), FateOfMachine(after, rows, i);
            second == FateAgain(first)
  {
    hide MachinesAfter, MachinesPlanned, Stored, DifferingFields, RoundTrips, CodeSeen;
    var first := FateOfMachine(register, rows, i);
    if first.Create? {
      CreatedAsPlanned(register, rows, i);
      ReadBack(first.wanted);
    } else if first != Bad {
      KeptAsItWas(register, rows, Key(CLIENT, rows[i].code));
    }
  }

  /** What a machine row's fate becomes on a second upload. */
  function FateAgain(fate: MachineFate): MachineFate {
    if !fate.Create? then fate
    else if RoundTrips(fate.wanted) then Unchanged
    else Conflict(["commissioned date"], false)
  }

  lemma FiledAgain(first: MachinePlan, second: MachinePlan, row: MachineRow, fate: MachineFate)
    requires second.create == [] && second.errors == first.errors
              && second.same == first.same + CountRoundTrips(first.create)
    ensures var f, s := Filed(first, row, fate), Filed(second, row, FateAgain(fate));
            s.create == [] && s.errors == f.errors && s.same == f.same + CountRoundTrips(f.create)
  {
    hide RoundTrips;
    if fate.Create? {
      var more := first.create + [NewMachine(row.row, row.code, fate.wanted)];
      assert more[..|more| - 1] == first.create;
    }
  }

  lemma {:induction false} MachinesAgain(register: Register, rows: seq<MachineRow>, devices: map<string, Device>,
      n: nat)
    requires n <= |rows|
    ensures var machines := MachinesAfter(register.machines, MachinesPlanned(register, rows, |rows|).create);
            var first, second := MachinesPlanned(register, rows, n),
                MachinesPlanned(Register(register.plants, machines, devices), rows, n);
            && second.create == [] && second.errors == first.errors
            && second.same == first.same + CountRoundTrips(first.create)
  {
    hide FateOfMachine, MachinesAfter, FateAgain, Filed, CountRoundTrips;
    if n == 0 {
      NothingRoundTrips();
    } else {
      MachinesAgain(register, rows, devices, n - 1);
      MachineAgain(register, rows, devices, n - 1);
      var machines := MachinesAfter(register.machines, MachinesPlanned(register, rows, |rows|).create);
      FiledAgain(MachinesPlanned(register, rows, n - 1),
        MachinesPlanned(Register(register.plants, machines, devices), rows, n - 1),
                 rows[n - 1], FateOfMachine(register, rows, n - 1));
    }
  }

  lemma NothingRoundTrips()
    ensures CountRoundTrips([]) == 0
  {
  }

  lemma StillThere(register: Register, workbook: Workbook, key: Key)
    ensures var after := After(register, PlanOf(register, workbook));
            (WillExist(register, workbook.machines, key) <==> WillExist(after, workbook.machines, key))
            && (Usable(register, key) ==> Usable(after, key))
  {
    hide FateOfMachine, MachinesAfter, MachinesPlanned, DevicesAfter, LoggersPlanned;
    var rows, devices := workbook.machines, DevicesAfter(register.devices, PlanOf(register, workbook).loggers.claim);
    forall j: nat | j < |rows| ensures FateOfMachine(register, rows, j) == Bad <==>
        FateOfMachine(After(register, PlanOf(register, workbook)), rows, j) == Bad {
      MachineAgain(register, rows, devices, j);
    }
    if Usable(register, key) {
      KeptAsItWas(register, rows, key);
    }
  }

  lemma ClaimedAsPlanned(register: Register, workbook: Workbook, i: nat)
    requires i < |workbook.loggers| && FateOfLogger(register, workbook, i) != LoggerBad
    ensures var imei := workbook.loggers[i].imei;
            var after := DevicesAfter(register.devices, LoggersPlanned(register, workbook, |workbook.loggers|).claim);
            if FateOfLogger(register, workbook, i).Claim? then
              imei in after && after[imei] == Device(Assigned, Some(workbook.loggers[i].code))
            else
              (imei in after <==> imei in register.devices)
              && (imei in register.devices ==> after[imei] == register.devices[imei])
  {
    hide FateOfLogger, LoggersPlanned, DevicesAfter;
    var rows := workbook.loggers;
    var claim := LoggersPlanned(register, workbook, |rows|).claim;
    DevicesClaimed(register.devices, claim, rows[i].imei);
    var mine := NewClaim(rows[i].row, rows[i].imei, rows[i].code);
    Claims(register, workbook, |rows|, mine);
    if FateOfLogger(register, workbook, i).Claim? {
      assert mine in claim;
    }
    forall d | d in claim && d.imei == rows[i].imei ensures d == mine && FateOfLogger(register, workbook, i).Claim? {
      Claims(register, workbook, |rows|, d);
      var j: nat :| j < |rows| && FateOfLogger(register, workbook, j).Claim?
          && d == NewClaim(rows[j].row, rows[j].imei, rows[j].code);
      if i < j {
        ImeisDiffer(register, workbook, i, j);
      } else if j < i {
        ImeisDiffer(register, workbook, j, i);
      }
    }
  }

  /**
    On a second upload a logger row claimed the first time is already claimed, and every other good row is
    as before.
   */
  lemma LoggerAgain(register: Register, workbook: Workbook, i: nat)
    requires i < |workbook.loggers| && FateOfLogger(register, workbook, i) != LoggerBad
    ensures var first, second := FateOfLogger(register, workbook, i),
              FateOfLogger(After(register, PlanOf(register, workbook)), workbook, i);
            second == if first.Claim? then AlreadyClaimed else first
  {
    hide WillExist, Usable, ImeiSeen, MachinesAfter, MachinesPlanned, DevicesAfter, LoggersPlanned;
    StillThere(register, workbook, KeyOf(workbook.loggers[i]));
    ClaimedAsPlanned(register, workbook, i);
  }

  lemma {:induction false} LoggersAgain(register: Register, workbook: Workbook, n: nat)
    requires n <= |workbook.loggers| && LoggersPlanned(register, workbook, n).errors == []
    ensures var first, second := LoggersPlanned(register, workbook, n),
              LoggersPlanned(After(register, PlanOf(register, workbook)), workbook, n);
            second.claim == [] && second.errors == [] && second.already == first.already + |first.claim|
  {
    hide FateOfLogger, After, PlanOf;
    if n == 0 {
    } else {
      LoggersAgain(register, workbook, n - 1);
      NoBadLoggers(register, workbook, n, n - 1);
      LoggerAgain(register, workbook, n - 1);
    }
  }

  /**
    Applying a workbook again writes nothing; a machine it made counts as unchanged exactly when its date
    reads back.
   */
  lemma SecondApplyIsEmpty(register: Register, workbook: Workbook)
    requires CanApply(PlanOf(register, workbook))
    ensures var first := PlanOf(register, workbook);
            var after := After(register, first);
            var second := PlanOf(after, workbook);
            && CanApply(second) && After(after, second) == after
            && second.machines.create == [] && second.loggers.claim == []
            && second.machines.same == first.machines.same + CountRoundTrips(first.machines.create)
            && second.loggers.already == first.loggers.already + |first.loggers.claim|
  {
    hide MachinesPlanned, LoggersPlanned, CountRoundTrips;
    var first := PlanOf(register, workbook);
    MachinesAgain(register, workbook.machines, DevicesAfter(register.devices, first.loggers.claim),
      |workbook.machines|);
    LoggersAgain(register, workbook, |workbook.loggers|);
  }

  /**
    A logger can be claimed to a machine that is retired in the register exactly when the workbook
    also lists that machine without an error, although such a row is otherwise refused.
   */
  lemma ClaimOfRetired(register: Register, workbook: Workbook, i: nat)
    requires i < |workbook.loggers|
    requires var row := workbook.loggers[i];
             && row.imei != "" && row.code != "" && !ImeiSeen(workbook.loggers, i, row.imei)
             && row.imei in register.devices && register.devices[row.imei] == Device(Assigned, None)
             && KeyOf(row) in register.machines && register.machines[KeyOf(row)].retired
    ensures FateOfLogger(register, workbook, i)
              == if WillExist(register, workbook.machines, KeyOf(workbook.loggers[i]))
                 then Claim(KeyOf(workbook.loggers[i]))
                 else LoggerBad
  {
  }

  // ------------------------------------------------------------------ two workbooks

  function Crane(commissioned: Option<string>): Details {
    Details("Crane", None, None, None, None, None, None, commissioned, None)
  }

  /** A crane commissioned on the thirtieth of February is made, and is a conflict the second time. */
  lemma RolledDateConflicts()
    ensures var row := MachineRow(2, "CR-7", true, None, true, Crane(Some("2025-02-30")));
            var register := Register(map[], map[], map[]);
            var first := FateOfMachine(register, [row], 0);
            var machines := MachinesAfter(map[], MachinesPlanned(register, [row], 1).create);
            && first == Create(row.details)
            && FateOfMachine(Register(map[], machines, map[]), [row], 0) == Conflict(["commissioned date"], false)
  {
    hide MachinesAfter, MachinesPlanned, IsDate, DayExists;
    var row := MachineRow(2, "CR-7", true, None, true, Crane(Some("2025-02-30")));
    ThirtiethOfFebruary();
    MachineAgain(Register(map[], map[], map[]), [row], map[], 0);
  }

  /** A free logger is refused to a retired machine, and claimed to it once the workbook lists the machine too. */
  lemma ListingClaimsRetired()
    ensures var register := Register(map[], map[Key(CLIENT, "CR-7") := Machine(true, Crane(None))],
              map["86" := Device(Assigned, None)]);
            var row, logger := MachineRow(2, "CR-7", true, None, true, Crane(None)), LoggerRow(2, "86", "CR-7", None);
            && FateOfLogger(register, Workbook([], [logger]), 0) == LoggerBad
            && FateOfLogger(register, Workbook([row], [logger]), 0) == Claim(Key(CLIENT, "CR-7"))
            && CanApply(PlanOf(register, Workbook([row], [logger])))
  {
    hide DifferingFields;
    var register := Register(map[], map[Key(CLIENT, "CR-7") := Machine(true, Crane(None))],
        map["86" := Device(Assigned, None)]);
    var row, logger := MachineRow(2, "CR-7", true, None, true, Crane(None)), LoggerRow(2, "86", "CR-7", None);
    assert FateOfMachine(register, [row], 0).Conflict?;
    assert WillExist(register, [row], Key(CLIENT, "CR-7")) && !WillExist(register, [], Key(CLIENT, "CR-7"));
    assert MachinesPlanned(register, [row], 1)
        == Filed(MachinesPlanned(register, [row], 0), row, FateOfMachine(register, [row], 0));
    var workbook := Workbook([row], [logger]);
    assert LoggersPlanned(register, workbook, 1)
        == LoggerFiled(LoggersPlanned(register, workbook, 0), logger, FateOfLogger(register, workbook, 0));
  }

  // ------------------------------------------------------------------ building and writing

  method PlanMachines(register: Register, rows: seq<MachineRow>) returns (plan: MachinePlan, willExist: set<Key>)
    ensures plan == MachinesPlanned(register, rows, |rows|)
    ensures forall key :: key in willExist <==> WillExist(register, rows, key)
  {
    hide DifferingFields;
    plan, willExist := MachinePlan([], 0, [], []), {};
    var seenCodes: set<string> := {};
    for i := 0 to |rows|
      invariant plan == MachinesPlanned(register, rows, i)
      invariant forall code :: code in seenCodes <==> CodeSeen(rows, i, code)
      invariant forall key :: key in willExist <==>
                exists j :: 0 <= j < i && FateOfMachine(register, rows, j) != Bad && key == Key(CLIENT, rows[j].code)
    {
      var row := rows[i];
      if !row.codeOk {
        plan := plan.(errors := plan.errors + [row.row]);
        continue;
      }
      if row.code in seenCodes {
        plan := plan.(errors := plan.errors + [row.row]);
        continue;
      }
      seenCodes := seenCodes + {row.code};
      if row.details.name == "" || !SiteOk(register.plants, row.site) || !DateOk(row.details.commissioned)
          || !row.hoursOk {
        plan := plan.(errors := plan.errors + [row.row]);
        continue;
      }
      var key, wanted := Key(CLIENT, row.code), Wanted(register.plants, row);
      willExist := willExist + {key};
      if key !in register.machines {
        plan := plan.(create := plan.create + [NewMachine(row.row, row.code, wanted)]);
        continue;
      }
      var existing := register.machines[key];
      var fields := DifferingFields(existing.details, wanted);
      if existing.retired {
        plan := plan.(conflicts := plan.conflicts + [MachineConflict(row.row, row.code, fields, true)]);
      } else if fields != [] {
        plan := plan.(conflicts := plan.conflicts + [MachineConflict(row.row, row.code, fields, false)]);
      } else {
        plan := plan.(same := plan.same + 1);
      }
    }
  }

  method PlanLoggers(register: Register, workbook: Workbook, willExist: set<Key>) returns (plan: LoggerPlan)
    requires forall key :: key in willExist <==> WillExist(register, workbook.machines, key)
    ensures plan == LoggersPlanned(register, workbook, |workbook.loggers|)
  {
    hide WillExist;
    plan := LoggerPlan([], 0, [], []);
    var rows := workbook.loggers;
    var seenImeis: set<string> := {};
    for i := 0 to |rows|
      invariant plan == LoggersPlanned(register, workbook, i)
      invariant forall imei :: imei in seenImeis ==> ImeiSeen(rows, i, imei)
      invariant forall imei :: imei != "" && ImeiSeen(rows, i, imei) ==> imei in seenImeis
    {
      var row := rows[i];
      if row.imei == "" || row.code == "" {
        plan := plan.(errors := plan.errors + [row.row]);
        continue;
      }
      if row.imei in seenImeis {
        plan := plan.(errors := plan.errors + [row.row]);
        continue;
      }
      seenImeis := seenImeis + {row.imei};
      var key := KeyOf(row);
      if key !in willExist && !Usable(register, key) {
        plan := plan.(errors := plan.errors + [row.row]);
        continue;
      }
      if row.imei !in register.devices {
        plan := plan.(conflicts := plan.conflicts + [LoggerConflictRow(row.row, row.imei, NotInThisAccount)]);
        continue;
      }
      var device := register.devices[row.imei];
      if device.state != Assigned {
        plan := plan.(conflicts := plan.conflicts + [LoggerConflictRow(row.row, row.imei, NotAssigned)]);
      } else if device.machine.None? {
        plan := plan.(claim := plan.claim + [NewClaim(row.row, row.imei, row.code)]);
      } else if device.machine.value == row.code {
        plan := plan.(already := plan.already + 1);
      } else {
        plan := plan.(conflicts := plan.conflicts + [LoggerConflictRow(row.row, row.imei, ClaimedToAnotherMachine)]);
      }
    }
  }

  /** The claims of a plan name different loggers, each free when the plan was made. */
  ghost predicate Claimable(devices: map<string, Device>, claim: seq<NewClaim>) {
    && (forall i, j :: 0 <= i < j < |claim| ==> claim[i].imei != claim[j].imei)
    && forall d :: d in claim ==> d.imei in devices && devices[d.imei] == Device(Assigned, None)
  }

  lemma {:induction false} PlannedClaimable(register: Register, workbook: Workbook, n: nat)
    requires n <= |workbook.loggers|
    ensures Claimable(register.devices, LoggersPlanned(register, workbook, n).claim)
  {
    hide FateOfLogger;
    if n == 0 {
    } else {
      var was := LoggersPlanned(register, workbook, n - 1).claim;
      PlannedClaimable(register, workbook, n - 1);
      forall d | d in LoggersPlanned(register, workbook, n).claim
          ensures d.imei in register.devices && register.devices[d.imei] == Device(Assigned, None) {
        Claims(register, workbook, n, d);
        StillFree(register, workbook, d);
      }
      if FateOfLogger(register, workbook, n - 1).Claim? {
        forall i | 0 <= i < |was| ensures was[i].imei != workbook.loggers[n - 1].imei {
          Claims(register, workbook, n - 1, was[i]);
          var j: nat :| j < n - 1 && FateOfLogger(register, workbook, j).Claim?
            && was[i] == NewClaim(workbook.loggers[j].row, workbook.loggers[j].imei, workbook.loggers[j].code);
          ImeisDiffer(register, workbook, j, n - 1);
        }
      }
    }
  }

  /** One account's register. */
  class FleetRegister {
    var register: Register

    constructor (initial: Register)
      ensures register == initial
    {
      register := initial;
    }

    method BuildPlan(workbook: Workbook) returns (plan: Plan)
      ensures plan == PlanOf(register, workbook)
    {
      var machines, willExist := PlanMachines(register, workbook.machines);
      var loggers := PlanLoggers(register, workbook, willExist);
      return Plan(machines, loggers);
    }

    method CreateMachines(create: seq<NewMachine>)
      modifies this
      ensures register == Register(old(register).plants, MachinesAfter(old(register).machines, create),
                old(register).devices)
    {
      for i := 0 to |create|
        invariant register == Register(old(register).plants, MachinesAfter(old(register).machines, create[..i]),
                  old(register).devices)
      {
        assert create[..i + 1][..i] == create[..i];
        var e := create[i];
        register := Register(register.plants,
          register.machines[Key(CLIENT, e.code) := Machine(false, Stored(e.details))], register.devices);
      }
      assert create[..|create|] == create;
    }

    /** Each claim is conditional on its logger still being free; `taken` are those claimed by hand meanwhile. */
    method ClaimLoggers(claim: seq<NewClaim>, taken: set<string>) returns (ok: bool)
      requires Claimable(register.devices, claim)
      modifies this
      ensures ok <==> forall d :: d in claim ==> d.imei !in taken
      ensures ok ==> register == Register(old(register).plants, old(register).machines,
                DevicesAfter(old(register).devices, claim))
    {
      for i := 0 to |claim|
        invariant register == Register(old(register).plants, old(register).machines,
                  DevicesAfter(old(register).devices, claim[..i]))
        invariant forall d :: d in claim[..i] ==> d.imei !in taken
      {
        assert claim[..i + 1][..i] == claim[..i];
        var d := claim[i];
        assert d in claim;
        DevicesClaimed(old(register).devices, claim[..i], d.imei);
        if d.imei in taken || register.devices[d.imei] != Device(Assigned, None) {
          return false;
        }
        register := Register(register.plants, register.machines,
          register.devices[d.imei := Device(Assigned, Some(d.code))]);
      }
      assert claim[..|claim|] == claim;
      return true;
    }

    /** The plan is rebuilt and written whole, or the transaction is rolled back. */
    method Apply(workbook: Workbook, taken: set<string>) returns (applied: bool, plan: Plan)
      modifies this
      ensures plan == PlanOf(old(register), workbook)
      ensures applied <==> CanApply(plan) && forall d :: d in plan.loggers.claim ==> d.imei !in taken
      ensures register == if applied then After(old(register), plan) else old(register)
    {
      hide MachinesPlanned, LoggersPlanned, MachinesAfter, DevicesAfter;
      var before := register;
      plan := BuildPlan(workbook);
      if !CanApply(plan) {
        return false, plan;
      }
      PlannedClaimable(register, workbook, |workbook.loggers|);
      CreateMachines(plan.machines.create);
      applied := ClaimLoggers(plan.loggers.claim, taken);
      if !applied {
        register := before;
      }
    }

    /** Uploading the same workbook again after it was applied changes nothing, whoever else is claiming loggers. */
    method ApplyAgain(workbook: Workbook, taken: set<string>, ghost first: Register) returns (applied: bool, plan: Plan)
      modifies this
      ensures CanApply(PlanOf(first, workbook)) && old(register) == After(first, PlanOf(first, workbook)) ==>
        applied && register == old(register) && plan.machines.create == [] && plan.loggers.claim == []
    {
      hide PlanOf, After, CanApply;
      applied, plan := Apply(workbook, taken);
      if CanApply(PlanOf(first, workbook)) && old(register) == After(first, PlanOf(first, workbook)) {
        SecondApplyIsEmpty(first, workbook);
      }
    }
  }
}
