/** The other records the report engine reads from the store. Their classes
    (`Parkingsession`, `ParkingSpot`, `subscriber`, `Role`) are not part of
    this model's sources; the field lists follow the system's data model and
    the nine-argument `subscriber` constructor call in the registration form.
    A session's `inTime` is kept as a local date-time, i.e. after the
    `Date` to `LocalDate` conversion the controllers perform. */
module Entities {
  import opened Wrappers
  import opened Calendar

  datatype ParkingSession = ParkingSession(
    sessionId: int,
    subscriberId: int,
    spotId: int,
    parkingCode: int,
    inTime: DateTime,
    outTime: Option<DateTime>,
    extended: bool,
    late: bool,
    active: bool)

  datatype SpotStatus = FREE | OCCUPIED | RESERVED

  datatype ParkingSpot = ParkingSpot(spotId: int, status: SpotStatus)

  datatype Role = MANAGER | SUBSCRIBER | ATTENDANT

  /** `Role.name()`. */
  function RoleName(r: Role): string {
    match r
    case MANAGER => "MANAGER"
    case SUBSCRIBER => "SUBSCRIBER"
    case ATTENDANT => "ATTENDANT"
  }

  datatype Subscriber = Subscriber(
    id: int,
    name: string,
    phone: string,
    email: string,
    role: Role,
    loggedIn: bool,
    history: Option<seq<ParkingSession>>,
    tag: string,
    code: int)

  /** The hour of a session's entry, `LocalDateTime.getHour()`. */
  function InHour(s: ParkingSession): (h: int)
    ensures 0 <= h < 24
  {
    s.inTime.minuteOfDay / 60
  }
}
