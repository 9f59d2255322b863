/**
  The persisted records of the system (users, devices, firmware, update
  jobs and audit entries), the insert inputs that the schema admits for
  each, and the column defaults the database fills in on insert.
 */
module Schema {
  import opened Basics
  import opened Tables

  /** Roles stored in `users.role`. */
  const ADMIN := "admin"
  const OPERATOR := "operator"

  /** Job statuses stored in `update_jobs.status`. */
  const PENDING := "pending"
  const IN_PROGRESS := "in_progress"
  const COMPLETED := "completed"
  const FAILED := "failed"
  const CANCELLED := "cancelled"

  /** The default rollout strategy. */
  const SEQUENTIAL := "sequential"

  /** The registration schema demands at least this many password characters. */
  const MIN_PASSWORD_LENGTH := 8

  datatype User = User(
    id: Id,
    username: string,
    passwordHash: string,
    role: string,
    createdAt: Millis)

  datatype Device = Device(
    id: Id,
    deviceIdentifier: string,
    name: string,
    deviceGroup: string,
    lastSeenAt: Option<Millis>,
    currentFirmwareId: Option<Id>,
    createdAt: Millis)

  datatype Firmware = Firmware(
    id: Id,
    name: string,
    version: string,
    description: Option<string>,
    releaseNotes: Option<string>,
    uploaderId: Id,
    storagePath: string,
    sha256: string,
    hmac: string,
    targetDeviceGroup: string,
    transportType: string,
    isActive: bool,
    createdAt: Millis)

  datatype UpdateJob = UpdateJob(
    id: Id,
    firmwareId: Id,
    initiatedBy: Id,
    transportType: string,
    strategy: string,
    status: string,
    progress: int,
    totalDevices: int,
    completedDevices: int,
    failedDevices: int,
    createdAt: Millis,
    updatedAt: Millis)

  /** The structured `details` payload each audited action records. */
  datatype AuditDetails =
    | UserDetails(username: string, role: string)
    | LoginDetails(loginName: string)
    | FirmwareDetails(firmwareName: string, version: string)
    | DeviceDetails(identifier: string, deviceName: string)
    | JobDetails(jobFirmwareId: Id, totalDevices: int)
    | RollbackDetails(originalJobId: Id)

  datatype AuditLog = AuditLog(
    id: Id,
    userId: Id,
    action: string,
    targetType: string,
    targetId: Option<Id>,
    details: AuditDetails,
    createdAt: Millis)

  /**
    Insert inputs. Each holds only the columns its insert schema keeps:
    ids, timestamps and server-computed columns are not fields, so a
    caller cannot set them. Columns with a default are optional.
   */
  datatype InsertUser = InsertUser(username: string, password: string, role: Option<string>)

  datatype InsertDevice = InsertDevice(
    deviceIdentifier: string,
    name: string,
    deviceGroup: string,
    currentFirmwareId: Option<Id>)

  datatype InsertFirmware = InsertFirmware(
    name: string,
    version: string,
    description: Option<string>,
    releaseNotes: Option<string>,
    targetDeviceGroup: string,
    transportType: string,
    isActive: Option<bool>)

  datatype InsertUpdateJob = InsertUpdateJob(
    firmwareId: Id,
    transportType: string,
    strategy: Option<string>,
    status: Option<string>,
    totalDevices: Option<int>)

  datatype InsertAuditLog = InsertAuditLog(
    userId: Id,
    action: string,
    targetType: string,
    targetId: Option<Id>,
    details: AuditDetails)

  /** The registration schema's one value check: the password's minimum length. */
  predicate ValidUserInput(input: InsertUser) {
    |input.password| >= MIN_PASSWORD_LENGTH
  }

  /** The row the database stores for an inserted user (`password` already hashed). */
  function NewUser(id: Id, input: InsertUser, now: Millis): (u: User)
    ensures u.id == id && u.username == input.username && u.passwordHash == input.password
    ensures input.role.None? ==> u.role == OPERATOR
    ensures input.role.Some? ==> u.role == input.role.value
  {
    User(id, input.username, input.password, input.role.GetOr(OPERATOR), now)
  }

  /** The row stored for a registered device: it has never been seen. */
  function NewDevice(id: Id, input: InsertDevice, now: Millis): (d: Device)
    ensures d.id == id && d.deviceIdentifier == input.deviceIdentifier
    ensures d.deviceGroup == input.deviceGroup
    ensures d.lastSeenAt.None?
  {
    Device(id, input.deviceIdentifier, input.name, input.deviceGroup, None, input.currentFirmwareId, now)
  }

  /**
    The row stored for an uploaded firmware: the uploader, storage path,
    digest and HMAC come from the server, never from the insert input, and
    the firmware is active unless the input says otherwise.
   */
  function NewFirmware(id: Id, input: InsertFirmware, uploaderId: Id, storagePath: string,
                       sha256: string, hmac: string, now: Millis): (f: Firmware)
    ensures f.id == id && f.uploaderId == uploaderId && f.storagePath == storagePath
    ensures f.sha256 == sha256 && f.hmac == hmac
    ensures f.targetDeviceGroup == input.targetDeviceGroup
    ensures input.isActive.None? ==> f.isActive
    ensures input.isActive.Some? ==> f.isActive == input.isActive.value
  {
    Firmware(id, input.name, input.version, input.description, input.releaseNotes, uploaderId,
             storagePath, sha256, hmac, input.targetDeviceGroup, input.transportType,
             input.isActive.GetOr(true), now)
  }

  /**
    The row stored for a new update job: counters and progress start at 0
    whatever the input, status defaults to pending and strategy to
    sequential.
   */
  function NewUpdateJob(id: Id, input: InsertUpdateJob, initiatedBy: Id, now: Millis): (j: UpdateJob)
    ensures j.id == id && j.firmwareId == input.firmwareId && j.initiatedBy == initiatedBy
    ensures j.transportType == input.transportType
    ensures j.progress == 0 && j.completedDevices == 0 && j.failedDevices == 0
    ensures input.status.None? ==> j.status == PENDING
    ensures input.strategy.None? ==> j.strategy == SEQUENTIAL
    ensures input.strategy.Some? ==> j.strategy == input.strategy.value
    ensures input.totalDevices.None? ==> j.totalDevices == 0
    ensures input.totalDevices.Some? ==> j.totalDevices == input.totalDevices.value
    ensures j.createdAt == now && j.updatedAt == now
  {
    UpdateJob(id, input.firmwareId, initiatedBy, input.transportType, input.strategy.GetOr(SEQUENTIAL),
              input.status.GetOr(PENDING), 0, input.totalDevices.GetOr(0), 0, 0, now, now)
  }

  function NewAuditLog(id: Id, input: InsertAuditLog, now: Millis): (a: AuditLog)
    ensures a.id == id && a.userId == input.userId && a.action == input.action
    ensures a.targetId == input.targetId && a.details == input.details
  {
    AuditLog(id, input.userId, input.action, input.targetType, input.targetId, input.details, now)
  }

  /** Sort keys of the `ORDER BY ... DESC` listings. */
  function DeviceLastSeenKey(d: Device): Stamp {
    match d.lastSeenAt
    case None => Null
    case Some(t) => At(t)
  }

  function FirmwareCreatedKey(f: Firmware): Stamp { At(f.createdAt) }

  function JobCreatedKey(j: UpdateJob): Stamp { At(j.createdAt) }

  function AuditCreatedKey(a: AuditLog): Stamp { At(a.createdAt) }
}
