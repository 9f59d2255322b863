/**
  The device list's status badge: whether a device has never reported,
  reported within the last five minutes, or not since. Parsing the
  stored timestamp into milliseconds (`new Date(...)`) is a parameter;
  it gives `None` for a string that is not a date, whose time is NaN.
 */
module DeviceStatus {
  import opened Basics

  const FIVE_MINUTES := 5 * 60 * 1000

  datatype Badge = NeverSeen | Online | Offline

  /**
    `getStatusBadge`: no timestamp (null or empty) is "Never seen"; a
    timestamp later than five minutes before `now` is "Online"; anything
    else, an unparseable one included, is "Offline".
   */
  function StatusBadge(lastSeenAt: Option<string>, now: int, parse: string -> Option<int>): (b: Badge)
    ensures b == NeverSeen <==> lastSeenAt.None? || lastSeenAt.value == ""
    ensures b == Online <==>
      && lastSeenAt.Some? && lastSeenAt.value != ""
      && parse(lastSeenAt.value).Some? && parse(lastSeenAt.value).value > now - FIVE_MINUTES
    ensures b == Offline <==>
      && lastSeenAt.Some? && lastSeenAt.value != ""
      && (parse(lastSeenAt.value).None? || parse(lastSeenAt.value).value <= now - FIVE_MINUTES)
  {
    if lastSeenAt.None? || lastSeenAt.value == "" then NeverSeen
    else
      match parse(lastSeenAt.value)
      case None => Offline
      case Some(lastSeen) => if lastSeen > now - FIVE_MINUTES then Online else Offline
  }

  /**
    The boundary and the future: seen exactly five minutes ago is already
    offline, seen one millisecond later is online, and a time after `now`
    (a device clock ahead of the browser's) is online.
   */
  lemma StatusBoundaries(s: string, now: int, parse: string -> Option<int>)
    requires s != "" && parse(s).Some?
    ensures parse(s).value == now - FIVE_MINUTES ==> StatusBadge(Some(s), now, parse) == Offline
    ensures parse(s).value == now - FIVE_MINUTES + 1 ==> StatusBadge(Some(s), now, parse) == Online
    ensures parse(s).value >= now ==> StatusBadge(Some(s), now, parse) == Online
  {
  }

  /** As the browser's clock moves on, an online device can go offline but an offline one never comes back online. */
  lemma StatusAging(s: Option<string>, now: int, later: int, parse: string -> Option<int>)
    requires now <= later
    ensures StatusBadge(s, now, parse) == Offline ==> StatusBadge(s, later, parse) == Offline
    ensures StatusBadge(s, later, parse) == Online ==> StatusBadge(s, now, parse) == Online
  {
  }
}
