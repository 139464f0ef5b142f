/** The two tables of the routine feature: `master_stakeholders`
    (MasterStakeholder) and `routine_schedules` (RoutineSchedule), with the
    status enumeration, the column defaults, the column widths and the
    request-body field sets that create and update accept. */
module Records {
  import opened Dates

  datatype Option<T> = None | Some(value: T)

  /** The failures a handler answers with: 400, 404, and 500 for an error
      the database raises (a violated NOT NULL, width, enum or foreign key). */
  datatype Failure = BadRequest | NotFound | ServerError

  function HttpStatus(f: Failure): (code: int)
    ensures 400 <= code < 600
  {
    match f
    case BadRequest => 400
    case NotFound => 404
    case ServerError => 500
  }

  datatype Response<T> = Ok(value: T) | Fail(failure: Failure)

  // ---------------------------------------------------------------------
  // Status enumeration
  // ---------------------------------------------------------------------

  /** `ENUM("scheduled", "completed", "pending", "cancelled")`. */
  datatype Status = Scheduled | Completed | Pending | Cancelled

  const DefaultStatus: Status := Scheduled

  function StatusName(s: Status): string {
    match s
    case Scheduled => "scheduled"
    case Completed => "completed"
    case Pending => "pending"
    case Cancelled => "cancelled"
  }

  /** The value the database accepts for the enum column, if any. */
  function ParseStatus(text: string): (r: Option<Status>)
    ensures r.Some? ==> StatusName(r.value) == text
  {
    if text == "scheduled" then Some(Scheduled)
    else if text == "completed" then Some(Completed)
    else if text == "pending" then Some(Pending)
    else if text == "cancelled" then Some(Cancelled)
    else None
  }

  /** Every status survives the trip through its column text, and the four
      names are distinct. */
  lemma StatusRoundTrip(s: Status)
    ensures ParseStatus(StatusName(s)) == Some(s)
  {
  }

  lemma StatusNamesDistinct(s: Status, t: Status)
    ensures StatusName(s) == StatusName(t) <==> s == t
  {
    StatusRoundTrip(s);
    StatusRoundTrip(t);
  }

  // ---------------------------------------------------------------------
  // Column types
  // ---------------------------------------------------------------------

  /** `DataTypes.INTEGER`: a signed 32-bit column. */
  predicate IsInt32(n: int) {
    -0x8000_0000 <= n < 0x8000_0000
  }

  /** `DataTypes.STRING(n)`; plain `STRING` is 255 wide. */
  predicate FitsString(s: Option<string>, width: nat) {
    s.None? || |s.value| <= width
  }

  // ---------------------------------------------------------------------
  // MasterStakeholder
  // ---------------------------------------------------------------------

  datatype Stakeholder = Stakeholder(
    id: int,
    institutionName: string,
    receivingAgency: Option<string>,
    branch: Option<string>,
    defaultQuantity: int,
    contactPerson: Option<string>,
    phone: Option<string>,
    address: Option<string>,
    isActive: bool)

  /** The row honours every declared column type (the auto-increment key
      aside: ids are unbounded here). */
  predicate StakeholderFits(s: Stakeholder) {
    |s.institutionName| <= 255
    && FitsString(s.receivingAgency, 255)
    && FitsString(s.branch, 100)
    && IsInt32(s.defaultQuantity)
    && FitsString(s.contactPerson, 100)
    && FitsString(s.phone, 20)
  }

  /** A request body for create or update: `None` marks an absent field. */
  datatype StakeholderFields = StakeholderFields(
    institutionName: Option<string>,
    receivingAgency: Option<string>,
    branch: Option<string>,
    defaultQuantity: Option<int>,
    contactPerson: Option<string>,
    phone: Option<string>,
    address: Option<string>,
    isActive: Option<bool>)

  function OrElse<T>(o: Option<T>, d: T): T {
    if o.Some? then o.value else d
  }

  /** A create body names the institution and every value it gives fits its column. */
  predicate StakeholderFieldsFit(f: StakeholderFields) {
    f.institutionName.Some? && |f.institutionName.value| <= 255
    && FitsString(f.receivingAgency, 255)
    && FitsString(f.branch, 100)
    && (f.defaultQuantity.None? || IsInt32(f.defaultQuantity.value))
    && FitsString(f.contactPerson, 100)
    && FitsString(f.phone, 20)
  }

  /** `MasterStakeholder.create(body)` with the auto-increment id `id`:
      defaults fill the absent fields, and the database refuses a missing
      institution name or a value wider than its column. */
  function NewStakeholder(id: int, f: StakeholderFields): (r: Response<Stakeholder>)
    ensures r.Ok? <==> StakeholderFieldsFit(f)
    ensures r.Ok? ==> StakeholderFits(r.value)
    ensures r.Fail? ==> r.failure == ServerError
    ensures r.Ok? ==> r.value.id == id && r.value.institutionName == f.institutionName.value
    ensures r.Ok? ==> r.value.defaultQuantity == OrElse(f.defaultQuantity, 0)
    ensures r.Ok? ==> r.value.isActive == OrElse(f.isActive, true)
    ensures r.Ok? ==> r.value.receivingAgency == f.receivingAgency && r.value.branch == f.branch
                      && r.value.contactPerson == f.contactPerson && r.value.phone == f.phone
                      && r.value.address == f.address
  {
    if f.institutionName.None? then Fail(ServerError)
    else
      var s := Stakeholder(id, f.institutionName.value, f.receivingAgency, f.branch,
                           OrElse(f.defaultQuantity, 0), f.contactPerson, f.phone, f.address,
                           OrElse(f.isActive, true));
      if StakeholderFits(s) then Ok(s) else Fail(ServerError)
  }

  /** An optional column: a field present in the body replaces the stored value. */
  function Override<T>(o: Option<T>, d: Option<T>): Option<T> {
    if o.Some? then o else d
  }

  /** `stakeholder.update(body)`: the fields present in the body replace
      the stored ones, the rest (and the id) stay. */
  function MergeStakeholder(s: Stakeholder, f: StakeholderFields): (r: Stakeholder)
    ensures r.id == s.id
    ensures r.institutionName == OrElse(f.institutionName, s.institutionName)
    ensures r.receivingAgency == Override(f.receivingAgency, s.receivingAgency)
    ensures r.branch == Override(f.branch, s.branch)
    ensures r.defaultQuantity == OrElse(f.defaultQuantity, s.defaultQuantity)
    ensures r.contactPerson == Override(f.contactPerson, s.contactPerson)
    ensures r.phone == Override(f.phone, s.phone)
    ensures r.address == Override(f.address, s.address)
    ensures r.isActive == OrElse(f.isActive, s.isActive)
    ensures f == StakeholderFields(None, None, None, None, None, None, None, None) ==> r == s
  {
    Stakeholder(s.id,
                OrElse(f.institutionName, s.institutionName),
                Override(f.receivingAgency, s.receivingAgency),
                Override(f.branch, s.branch),
                OrElse(f.defaultQuantity, s.defaultQuantity),
                Override(f.contactPerson, s.contactPerson),
                Override(f.phone, s.phone),
                Override(f.address, s.address),
                OrElse(f.isActive, s.isActive))
  }

  /** Sending the same update body twice stores what sending it once does. */
  lemma MergeStakeholderIdempotent(s: Stakeholder, f: StakeholderFields)
    ensures MergeStakeholder(MergeStakeholder(s, f), f) == MergeStakeholder(s, f)
  {
  }

  // ---------------------------------------------------------------------
  // RoutineSchedule
  // ---------------------------------------------------------------------

  datatype Schedule = Schedule(
    id: int,
    stakeholderId: int,
    pickupDate: Date,
    quantity: int,
    status: Status,
    pic: Option<string>,
    notes: Option<string>,
    proofFile: Option<string>,
    createdBy: Option<int>)

  predicate ScheduleFits(s: Schedule) {
    IsValid(s.pickupDate)
    && IsInt32(s.quantity)
    && FitsString(s.pic, 100)
    && FitsString(s.proofFile, 255)
    && (s.createdBy.None? || IsInt32(s.createdBy.value))
  }

  /** A (multipart) request body for create or update. */
  datatype ScheduleFields = ScheduleFields(
    stakeholderId: Option<int>,
    pickupDate: Option<Date>,
    quantity: Option<int>,
    status: Option<string>,
    pic: Option<string>,
    notes: Option<string>,
    proofFile: Option<string>,
    createdBy: Option<int>)

  /** `if (req.file) data.proof_file = req.file.filename`: an uploaded file's
      stored name replaces whatever the body said; otherwise the body stands. */
  function WithUpload(f: ScheduleFields, upload: Option<string>): (r: ScheduleFields)
    ensures r.proofFile == (if upload.Some? then upload else f.proofFile)
    ensures r.(proofFile := f.proofFile) == f
  {
    if upload.Some? then f.(proofFile := upload) else f
  }

  /** The status text the enum column accepts: absent, or one of the four names. */
  predicate StatusAccepted(status: Option<string>) {
    status.None? || ParseStatus(status.value).Some?
  }

  /** A create body the table accepts: it names a stakeholder and a valid
      pickup date, its status (if any) is in the enumeration and every
      value fits its column once the quantity defaults to 0. */
  predicate ScheduleFieldsFit(f: ScheduleFields) {
    f.stakeholderId.Some? && f.pickupDate.Some? && StatusAccepted(f.status)
    && IsValid(f.pickupDate.value)
    && IsInt32(OrElse(f.quantity, 0))
    && FitsString(f.pic, 100)
    && FitsString(f.proofFile, 255)
    && (f.createdBy.None? || IsInt32(f.createdBy.value))
  }

  /** `RoutineSchedule.create(data)` with the auto-increment id `id`: the
      database insists on a stakeholder id and a pickup date, defaults the
      quantity to 0 and the status to "scheduled", and refuses a status
      outside the enumeration or a value wider than its column. */
  function NewSchedule(id: int, f: ScheduleFields): (r: Response<Schedule>)
    ensures r.Ok? <==> ScheduleFieldsFit(f)
    ensures r.Fail? ==> r.failure == ServerError
    ensures r.Ok? ==> ScheduleFits(r.value) && r.value.id == id
    ensures r.Ok? ==> f.stakeholderId == Some(r.value.stakeholderId)
                      && f.pickupDate == Some(r.value.pickupDate)
                      && r.value.quantity == OrElse(f.quantity, 0)
    ensures r.Ok? ==> (f.status.None? ==> r.value.status == DefaultStatus)
                      && (f.status.Some? ==> StatusName(r.value.status) == f.status.value)
    ensures r.Ok? ==> r.value.pic == f.pic && r.value.notes == f.notes
                      && r.value.proofFile == f.proofFile && r.value.createdBy == f.createdBy
  {
    if f.stakeholderId.None? || f.pickupDate.None? then Fail(ServerError)
    else
      var status := if f.status.None? then Some(DefaultStatus) else ParseStatus(f.status.value);
      if status.None? then Fail(ServerError)
      else
        var s := Schedule(id, f.stakeholderId.value, f.pickupDate.value, OrElse(f.quantity, 0),
                          status.value, f.pic, f.notes, f.proofFile, f.createdBy);
        if ScheduleFits(s) then Ok(s) else Fail(ServerError)
  }

  /** An update body the table accepts over the stored row `s`: its status
      (if any) is in the enumeration and every merged value fits its column. */
  predicate MergeFits(s: Schedule, f: ScheduleFields) {
    StatusAccepted(f.status)
    && IsValid(OrElse(f.pickupDate, s.pickupDate))
    && IsInt32(OrElse(f.quantity, s.quantity))
    && FitsString(Override(f.pic, s.pic), 100)
    && FitsString(Override(f.proofFile, s.proofFile), 255)
    && (Override(f.createdBy, s.createdBy).None? || IsInt32(Override(f.createdBy, s.createdBy).value))
  }

  /** `routine.update(data)`: the present fields replace the stored ones;
      an unknown status is refused by the enum column. */
  function MergeSchedule(s: Schedule, f: ScheduleFields): (r: Response<Schedule>)
    ensures r.Ok? <==> MergeFits(s, f)
    ensures r.Fail? ==> r.failure == ServerError
    ensures r.Ok? ==> ScheduleFits(r.value) && r.value.id == s.id
    ensures r.Ok? ==> r.value.stakeholderId == OrElse(f.stakeholderId, s.stakeholderId)
                      && r.value.pickupDate == OrElse(f.pickupDate, s.pickupDate)
                      && r.value.quantity == OrElse(f.quantity, s.quantity)
    ensures r.Ok? ==> Some(r.value.status) == (if f.status.None? then Some(s.status) else ParseStatus(f.status.value))
    ensures r.Ok? ==> r.value.pic == Override(f.pic, s.pic) && r.value.notes == Override(f.notes, s.notes)
                      && r.value.proofFile == Override(f.proofFile, s.proofFile)
                      && r.value.createdBy == Override(f.createdBy, s.createdBy)
  {
    var status := if f.status.None? then Some(s.status) else ParseStatus(f.status.value);
    if status.None? then Fail(ServerError)
    else
      var m := Schedule(s.id, OrElse(f.stakeholderId, s.stakeholderId), OrElse(f.pickupDate, s.pickupDate),
                        OrElse(f.quantity, s.quantity), status.value,
                        Override(f.pic, s.pic), Override(f.notes, s.notes),
                        Override(f.proofFile, s.proofFile), Override(f.createdBy, s.createdBy));
      if ScheduleFits(m) then Ok(m) else Fail(ServerError)
  }

  /** An accepted update body sent a second time is accepted again and
      changes nothing more. */
  lemma MergeScheduleIdempotent(s: Schedule, f: ScheduleFields)
    requires MergeSchedule(s, f).Ok?
    ensures MergeSchedule(MergeSchedule(s, f).value, f) == MergeSchedule(s, f)
  {
    var m := MergeSchedule(s, f).value;
    if f.status.Some? {
      var st := ParseStatus(f.status.value).value;
      assert m.status == st;
    }
  }

  /** An empty update body is accepted on a stored row and changes nothing. */
  lemma EmptyMergeKeeps(s: Schedule)
    requires ScheduleFits(s)
    ensures MergeSchedule(s, ScheduleFields(None, None, None, None, None, None, None, None)) == Ok(s)
  {
  }

  /** A body that carries only an accepted status changes only the status. */
  lemma StatusOnlyUpdate(s: Schedule, st: Status)
    requires ScheduleFits(s)
    ensures MergeSchedule(s, ScheduleFields(None, None, None, Some(StatusName(st)), None, None, None, None))
            == Ok(s.(status := st))
  {
    StatusRoundTrip(st);
  }
}
