/**
 * The client's identity store: three keys of the browser's `localStorage`
 * hold the device id, the user id and the chosen role. Outside a browser
 * (no `window`) every read gives ""/null and every write does nothing.
 *
 * The clock and the random number behind a new device id are parameters.
 */
module Browser {
  import opened Wrappers
  import opened Text
  import opened Models

  const DeviceKey: string := "tai_device_id"
  const UserKey: string := "tai_user_id"
  const RoleKey: string := "tai_role"

  /** JavaScript's `substring(start, end)` for non-negative bounds: both are clamped to the length, and swapped when reversed. */
  function Substring(s: string, start: nat, end: nat): (r: string)
    ensures start <= end <= |s| ==> r == s[start..end]
    ensures |r| <= |s|
  {
    var a := if start <= |s| then start else |s|;
    var b := if end <= |s| then end else |s|;
    if a <= b then s[a..b] else s[b..a]
  }

  /**
   * `generateDeviceId`: "device_", the clock in milliseconds, "_" and
   * characters 2 to 8 of the random number's base-36 text.
   */
  function GenerateDeviceId(now: nat, random36: string): (r: string)
    ensures "device_" <= r
  {
    "device_" + NatToString(now) + "_" + Substring(random36, 2, 9)
  }

  /** `getItem`: the stored text, or null. */
  function Get(items: map<string, string>, key: string): Option<string> {
    if key in items then Some(items[key]) else None
  }

  /** A device id is stored: present and not empty (an empty one counts as missing). */
  predicate HasDeviceId(items: map<string, string>) {
    DeviceKey in items && items[DeviceKey] != ""
  }

  /** The device id a read returns, with `generated` the id generated when none is stored. */
  function DeviceIdOf(items: map<string, string>, generated: string): (r: string)
    ensures HasDeviceId(items) ==> Get(items, DeviceKey) == Some(r)
    ensures !HasDeviceId(items) ==> r == generated
  {
    if HasDeviceId(items) then items[DeviceKey] else generated
  }

  /** The items after a device id read: the generated id is stored only when none was. */
  function WithDeviceId(items: map<string, string>, generated: string): (r: map<string, string>)
    ensures Get(r, DeviceKey) == Some(DeviceIdOf(items, generated))
    ensures forall k :: k != DeviceKey ==> Get(r, k) == Get(items, k)
  {
    if HasDeviceId(items) then items else items[DeviceKey := generated]
  }

  /** Once a device id is stored, every later read returns it and stores nothing. */
  lemma DeviceIdStable(items: map<string, string>, generated: string, later: string)
    requires generated != ""
    ensures DeviceIdOf(WithDeviceId(items, generated), later) == DeviceIdOf(items, generated)
    ensures WithDeviceId(WithDeviceId(items, generated), later) == WithDeviceId(items, generated)
  {
    assert HasDeviceId(WithDeviceId(items, generated));
  }

  /** The stored role: the value only when it is exactly "student" or "teacher". */
  function RoleOf(items: map<string, string>): (r: Option<Role>)
    ensures r.Some? <==> RoleKey in items && (items[RoleKey] == "student" || items[RoleKey] == "teacher")
    ensures r.Some? ==> items[RoleKey] == RoleName(r.value)
  {
    match Get(items, RoleKey)
    case None => None
    case Some(s) => ParseRole(s)
  }

  /** A role that is set is read back. */
  lemma RoleRoundTrip(items: map<string, string>, role: Role)
    ensures RoleOf(items[RoleKey := RoleName(role)]) == Some(role)
  {
    ParseRoleName(role);
  }

  /** A user id that is set is read back. */
  lemma UserIdRoundTrip(items: map<string, string>, userId: string)
    ensures Get(items[UserKey := userId], UserKey) == Some(userId)
  {
  }

  /** `clearStoredUser`'s removals. */
  function Cleared(items: map<string, string>): map<string, string> {
    items - {UserKey, RoleKey}
  }

  /** Clearing the user forgets the user id and the role and keeps every other key, the device id included. */
  lemma ClearKeepsDevice(items: map<string, string>)
    ensures Get(Cleared(items), UserKey).None? && RoleOf(Cleared(items)).None?
    ensures forall k :: k != UserKey && k != RoleKey ==> Get(Cleared(items), k) == Get(items, k)
    ensures Get(Cleared(items), DeviceKey) == Get(items, DeviceKey)
  {
  }

  /** The browser's `localStorage`, and whether there is a `window` at all. */
  class LocalStorage {
    var items: map<string, string>
    const hasWindow: bool

    constructor(hasWindow: bool, items: map<string, string>)
      ensures this.hasWindow == hasWindow && this.items == items
    {
      this.hasWindow := hasWindow;
      this.items := items;
    }

    /**
     * `getStoredDeviceId`: the stored device id, or a new one generated from
     * the clock and the random number, which is then stored.
     */
    method GetStoredDeviceId(now: nat, random36: string) returns (id: string)
      modifies this
      ensures id == (if hasWindow then DeviceIdOf(old(items), GenerateDeviceId(now, random36)) else "")
      ensures items == (if hasWindow then WithDeviceId(old(items), GenerateDeviceId(now, random36)) else old(items))
    {
      if !hasWindow {
        return "";
      }
      var stored := Get(items, DeviceKey);
      if stored.None? || stored.value == "" {
        id := GenerateDeviceId(now, random36);
        items := items[DeviceKey := id];
      } else {
        id := stored.value;
      }
    }

    /** `getStoredUserId`. */
    function GetStoredUserId(): (r: Option<string>)
      reads this
      ensures !hasWindow ==> r.None?
      ensures hasWindow ==> r == Get(items, UserKey)
    {
      if hasWindow then Get(items, UserKey) else None
    }

    /** `setStoredUserId`. */
    method SetStoredUserId(userId: string)
      modifies this
      ensures items == (if hasWindow then old(items)[UserKey := userId] else old(items))
    {
      if hasWindow {
        items := items[UserKey := userId];
      }
    }

    /** `getStoredRole`. */
    function GetStoredRole(): (r: Option<Role>)
      reads this
      ensures !hasWindow ==> r.None?
      ensures hasWindow ==> r == RoleOf(items)
    {
      if hasWindow then RoleOf(items) else None
    }

    /** `setStoredRole`. */
    method SetStoredRole(role: Role)
      modifies this
      ensures items == (if hasWindow then old(items)[RoleKey := RoleName(role)] else old(items))
    {
      if hasWindow {
        items := items[RoleKey := RoleName(role)];
      }
    }

    /** `clearStoredUser`. */
    method ClearStoredUser()
      modifies this
      ensures items == (if hasWindow then Cleared(old(items)) else old(items))
    {
      if hasWindow {
        items := items - {UserKey, RoleKey};
      }
    }

    /** The legacy `getStoredStudentId`: the device id. */
    method GetStoredStudentId(now: nat, random36: string) returns (id: string)
      modifies this
      ensures id == (if hasWindow then DeviceIdOf(old(items), GenerateDeviceId(now, random36)) else "")
      ensures items == (if hasWindow then WithDeviceId(old(items), GenerateDeviceId(now, random36)) else old(items))
    {
      id := GetStoredDeviceId(now, random36);
    }
  }

  /** The legacy `generateStudentId`: a device id. */
  function GenerateStudentId(now: nat, random36: string): (r: string)
    ensures r == GenerateDeviceId(now, random36)
  {
    GenerateDeviceId(now, random36)
  }
}
