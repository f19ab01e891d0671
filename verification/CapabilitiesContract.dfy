/**
The frozen-contract guards that a runtime's advertised capabilities have to pass, and the date reading
of contract versions they rest on. The constants of the contract (minimum version, freeze date, canonical
methods, required features, error codes) are parameters.
*/
module CapabilitiesContract {
  import opened Options
  import MethodSetHash
  import Text

  type Name = MethodSetHash.Name

  const DESKTOP_CORE := "desktop-core"
  const FULL_RUNTIME := "full-runtime"

  datatype Contract = Contract(
    minimumVersion: string,
    freezeEffectiveAt: string,
    canonicalMethods: set<Name>,
    requiredFeatures: seq<string>,
    requiredDesktopFeatures: seq<string>,
    errorCodes: map<string, string>,
    collation: (Name, Name) -> bool)

  /** Methods are listed in the insertion order of the source's set. */
  datatype Snapshot = Snapshot(
    methods: seq<Name>,
    profile: Option<string>,
    contractVersion: Option<string>,
    freezeEffectiveAt: Option<string>,
    methodSetHash: Option<string>,
    features: set<string>,
    errorCodes: Option<map<string, string>>)

  datatype GuardError =
    | VersionMismatch(actual: string, minimum: string)
    | HashMissing
    | HashMismatch(advertised: string, computed: string)
    | ProfileMismatch(profile: string)
    | NonCanonicalMethods(methods: seq<Name>)
    | MissingFeatures(features: seq<string>)
    | FreezeMismatch(freezeEffectiveAt: Option<string>)
    | ErrorCodesMismatch(codes: Option<map<string, string>>)

  // ---- Contract versions are calendar dates ----

  predicate IsDigit(c: char) {
    '0' <= c <= '9'
  }

  /** `\d{4}-\d{2}-\d{2}` over the whole text. */
  predicate IsoShape(s: string) {
    && |s| == 10 && s[4] == '-' && s[7] == '-'
    && forall i | 0 <= i < 10 && i != 4 && i != 7 :: IsDigit(s[i])
  }

  function ParseInt(s: string): nat
    requires forall i | 0 <= i < |s| :: IsDigit(s[i])
  {
    if s == "" then 0
    else
      assert IsDigit(s[|s| - 1]);
      10 * ParseInt(s[..|s| - 1]) + (s[|s| - 1] as int - '0' as int)
  }

  datatype Date = Date(year: int, month: int, day: int)

  predicate IsLeap(year: int) {
    year % 4 == 0 && (year % 100 != 0 || year % 400 == 0)
  }

  /** Months count from 1. */
  function DaysIn(year: int, month: int): (days: int)
    ensures 28 <= days <= 31
  {
    if month == 2 then if IsLeap(year) then 29 else 28
    else if month in {4, 6, 9, 11} then 30
    else 31
  }

  predicate OnCalendar(d: Date) {
    1 <= d.month <= 12 && 1 <= d.day <= DaysIn(d.year, d.month)
  }

  /** The Gregorian calendar. */
  lemma {:induction false} CalendarIsGregorian(year: int, month: int, day: int)
    ensures OnCalendar(Date(year, month, day)) <==>
            && 1 <= month <= 12 && 1 <= day <= 31
            && (month == 4 || month == 6 || month == 9 || month == 11 ==> day <= 30)
            && (month == 2 ==> day <= 29)
            && (month == 2 && day == 29 ==> year % 4 == 0 && (year % 100 != 0 || year % 400 == 0))
  {
  }

  function NextMonth(d: Date): Date {
    if d.month == 12 then Date(d.year + 1, 1, d.day) else Date(d.year, d.month + 1, d.day)
  }

  function PreviousMonth(d: Date): Date {
    if d.month == 1 then Date(d.year - 1, 12, d.day) else Date(d.year, d.month - 1, d.day)
  }

  /** Day numbers beyond the month run over into the next ones; day 0 is the last day of the previous one. */
  function RollDay(d: Date): Date
    requires d.day >= 0
    decreases d.day
  {
    if d.day == 0 then
      var p := PreviousMonth(d);
      p.(day := DaysIn(p.year, p.month))
    else if d.day <= DaysIn(d.year, d.month) then d
    else RollDay(NextMonth(d).(day := d.day - DaysIn(d.year, d.month)))
  }

  /**
  The date `Date.UTC(year, month - 1, day)` denotes: two-digit years mean 19xx, and surplus months and days carry.
  */
  function Utc(d: Date): Date
    requires d.day >= 0
  {
    var fullYear := if 0 <= d.year <= 99 then 1900 + d.year else d.year;
    RollDay(Date(fullYear + (d.month - 1) / 12, (d.month - 1) % 12 + 1, d.day))
  }

  function Fields(s: string): Date
    requires IsoShape(s)
  {
    Date(ParseInt(s[..4]), ParseInt(s[5..7]), ParseInt(s[8..]))
  }

  function Code(d: Date): int {
    d.year * 10000 + d.month * 100 + d.day
  }

  /** The date a version names, if reading it back gives the same fields. */
  function ParseDate(version: string): Option<Date> {
    var trimmed := Text.Trim(version);
    if !IsoShape(trimmed) then None
    else
      var d := Fields(trimmed);
      if d.day >= 0 && Utc(d) == d then Some(d) else None
  }

  function ParseVersion(version: string): Option<int> {
    var d := ParseDate(version);
    if d.None? then None else Some(Code(d.value))
  }

  predicate Earlier(a: Date, b: Date) {
    a.year < b.year || (a.year == b.year && a.month < b.month)
  }

  /** Carrying always moves to another month. */
  lemma {:induction false} RollingLeavesTheMonth(d: Date)
    requires 1 <= d.month <= 12 && d.day > DaysIn(d.year, d.month)
    ensures Earlier(d, RollDay(d)) && 1 <= RollDay(d).month <= 12
    decreases d.day
  {
    var next := NextMonth(d).(day := d.day - DaysIn(d.year, d.month));
    if next.day > DaysIn(next.year, next.month) {
      RollingLeavesTheMonth(next);
    }
  }

  /** Reading the date back after `Date.UTC` gives the same fields exactly for real dates from year 100 on. */
  lemma {:induction false} UtcKeepsExactlyCalendarDates(d: Date)
    requires 0 <= d.year && 0 <= d.month && 0 <= d.day
    ensures Utc(d) == d <==> OnCalendar(d) && d.year >= 100
  {
    var fullYear := if 0 <= d.year <= 99 then 1900 + d.year else d.year;
    var carried := Date(fullYear + (d.month - 1) / 12, (d.month - 1) % 12 + 1, d.day);
    if d.month == 0 {
      assert (0 - 1) / 12 == -1 && (0 - 1) % 12 == 11;
    }
    if carried.day > DaysIn(carried.year, carried.month) {
      RollingLeavesTheMonth(carried);
    }
  }

  /** A version is accepted as a date exactly when its text is ISO-shaped and names a day of the calendar. */
  lemma {:induction false} VersionsAreCalendarDates(version: string, trimmed: string)
    requires trimmed == Text.Trim(version)
    ensures ParseDate(version) ==
            if IsoShape(trimmed) && OnCalendar(Fields(trimmed)) && Fields(trimmed).year >= 100
            then Some(Fields(trimmed)) else None
  {
    if IsoShape(trimmed) {
      UtcKeepsExactlyCalendarDates(Fields(trimmed));
    }
  }

  predicate NotAfter(a: Date, b: Date) {
    Earlier(a, b) || (a.year == b.year && a.month == b.month && a.day <= b.day)
  }

  /** Comparing the codes of two accepted versions compares their dates. */
  lemma {:induction false} VersionOrderIsChronological(v: string, w: string, a: Date, b: Date)
    requires ParseDate(v) == Some(a) && ParseDate(w) == Some(b)
    ensures ParseVersion(v).Some? && ParseVersion(w).Some?
    ensures ParseVersion(v).value <= ParseVersion(w).value <==> NotAfter(a, b)
  {
    VersionsAreCalendarDates(v, Text.Trim(v));
    VersionsAreCalendarDates(w, Text.Trim(w));
    CodesFollowDates(a, b);
  }

  lemma {:induction false} CodesFollowDates(a: Date, b: Date)
    requires OnCalendar(a) && OnCalendar(b)
    ensures Code(a) <= Code(b) <==> NotAfter(a, b)
  {
  }

  // ---- The guards, in the order the probe runs them ----

  predicate NotBefore(required: Option<int>, actual: Option<int>) {
    required.Some? && actual.Some? && actual.value >= required.value
  }

  predicate AtLeastMinimum(c: Contract, version: Option<string>) {
    version.Some? && version.value != "" && NotBefore(ParseVersion(c.minimumVersion), ParseVersion(version.value))
  }

  function GuardVersion(c: Contract, version: string): Option<GuardError> {
    if ParseVersion(c.minimumVersion).None? then None
    else if !NotBefore(ParseVersion(c.minimumVersion), ParseVersion(version)) then
      Some(VersionMismatch(version, c.minimumVersion))
    else None
  }

  function GuardHash(c: Contract, s: Snapshot): Option<GuardError> {
    if s.methodSetHash.None? || s.methodSetHash.value == "" then Some(HashMissing)
    else
      var computed := MethodSetHash.ClientHash(s.methods, c.collation);
      if computed != s.methodSetHash.value then Some(HashMismatch(s.methodSetHash.value, computed)) else None
  }

  function GuardProfile(s: Snapshot): Option<GuardError> {
    if s.profile.None? || s.profile.value in {FULL_RUNTIME, DESKTOP_CORE} then None
    else Some(ProfileMismatch(s.profile.value))
  }

  function Rejected<T(==)>(items: seq<T>, allowed: set<T>): seq<T> {
    if items == [] then []
    else (if items[0] in allowed then [] else [items[0]]) + Rejected(items[1..], allowed)
  }

  function GuardCanonical(c: Contract, s: Snapshot): Option<GuardError> {
    var strays := Rejected(s.methods, c.canonicalMethods);
    if strays != [] then Some(NonCanonicalMethods(strays)) else None
  }

  function Required(c: Contract, s: Snapshot): seq<string> {
    if s.profile == Some(DESKTOP_CORE) then c.requiredDesktopFeatures else c.requiredFeatures
  }

  function GuardFeatures(c: Contract, s: Snapshot): Option<GuardError> {
    var missing := Rejected(Required(c, s), s.features);
    if missing != [] then Some(MissingFeatures(missing)) else None
  }

  function GuardFreeze(c: Contract, s: Snapshot): Option<GuardError> {
    if s.freezeEffectiveAt != Some(c.freezeEffectiveAt) then Some(FreezeMismatch(s.freezeEffectiveAt)) else None
  }

  /** Same size, and every expected entry is found. */
  predicate StringMapsEqual(left: Option<map<string, string>>, right: map<string, string>) {
    left.Some? && |left.value| == |right| && forall k | k in right :: k in left.value && left.value[k] == right[k]
  }

  function GuardErrorCodes(c: Contract, s: Snapshot): Option<GuardError> {
    if !StringMapsEqual(s.errorCodes, c.errorCodes) then Some(ErrorCodesMismatch(s.errorCodes)) else None
  }

  function OrElse<E>(first: Option<E>, second: Option<E>): Option<E> {
    if first.Some? then first else second
  }

  /** A snapshot that states no version passes this guard. */
  function VersionFailure(c: Contract, s: Snapshot): Option<GuardError> {
    if s.contractVersion.None? || s.contractVersion.value == "" then None else GuardVersion(c, s.contractVersion.value)
  }

  function LaterFailure(c: Contract, s: Snapshot): Option<GuardError> {
    OrElse(GuardHash(c, s), OrElse(GuardProfile(s), OrElse(GuardCanonical(c, s),
      OrElse(GuardFeatures(c, s), OrElse(GuardFreeze(c, s), GuardErrorCodes(c, s))))))
  }

  /** The first failure, or None. Every guard after the version skips a snapshot below the minimum version. */
  function Guard(c: Contract, s: Snapshot): Option<GuardError> {
    if !AtLeastMinimum(c, s.contractVersion) then VersionFailure(c, s)
    else OrElse(VersionFailure(c, s), LaterFailure(c, s))
  }

  lemma {:induction false} NothingRejected<T>(items: seq<T>, allowed: set<T>)
    ensures Rejected(items, allowed) == [] <==> forall x | x in items :: x in allowed
  {
    if items != [] {
      NothingRejected(items[1..], allowed);
      assert items == [items[0]] + items[1..];
    }
  }

  /** Comparing sizes and looking up one side's entries decides equality of maps. */
  lemma {:induction false} StringMapsEqualIsEquality(left: Option<map<string, string>>, right: map<string, string>)
    ensures StringMapsEqual(left, right) <==> left == Some(right)
  {
    if StringMapsEqual(left, right) {
      KeysCoincide(right.Keys, left.value.Keys);
      assert left.value == right;
    }
  }

  lemma {:induction false} KeysCoincide(small: set<string>, large: set<string>)
    requires small <= large && |small| == |large|
    ensures small == large
  {
    assert |large - small| == |large| - |small|;
  }

  ghost predicate IsKnownProfile(profile: Option<string>) {
    profile == None || profile == Some("full-runtime") || profile == Some("desktop-core")
  }

  /** The desktop core has features of its own to offer, every other profile the general ones. */
  ghost predicate IsRequired(c: Contract, s: Snapshot, feature: string) {
    if s.profile == Some("desktop-core") then feature in c.requiredDesktopFeatures else feature in c.requiredFeatures
  }

  /** What a conforming runtime advertises. */
  ghost predicate Conforms(c: Contract, s: Snapshot) {
    && s.methodSetHash == Some(MethodSetHash.ClientHash(s.methods, c.collation))
    && IsKnownProfile(s.profile)
    && (forall m | m in s.methods :: m in c.canonicalMethods)
    && (forall f | IsRequired(c, s, f) :: f in s.features)
    && s.freezeEffectiveAt == Some(c.freezeEffectiveAt)
    && s.errorCodes == Some(c.errorCodes)
  }

  predicate HasVersion(s: Snapshot) {
    s.contractVersion.Some? && s.contractVersion.value != ""
  }

  /**
  The guards let a snapshot through exactly when it states no version, or states one that is a date not before
  the minimum and conforms to the contract in full. Nothing in between is tolerated.
  */
  lemma {:induction false} GuardPassesExactlyConforming(c: Contract, s: Snapshot)
    requires ParseVersion(c.minimumVersion).Some?
    ensures Guard(c, s).None? <==>
            (HasVersion(s) ==> AtLeastMinimum(c, s.contractVersion) && Conforms(c, s))
  {
    VersionPassesExactlyFromTheMinimum(c, s);
    ConformanceGuardByGuard(c, s);
  }

  lemma {:induction false} VersionPassesExactlyFromTheMinimum(c: Contract, s: Snapshot)
    requires ParseVersion(c.minimumVersion).Some?
    ensures VersionFailure(c, s).None? <==> !HasVersion(s) || AtLeastMinimum(c, s.contractVersion)
    ensures AtLeastMinimum(c, s.contractVersion) ==> HasVersion(s)
  {
  }

  lemma {:induction false} ConformanceGuardByGuard(c: Contract, s: Snapshot)
    ensures Conforms(c, s) <==> LaterFailure(c, s).None?
  {
    HashGuardPasses(c, s);
    ListGuardsPass(c, s);
    StringMapsEqualIsEquality(s.errorCodes, c.errorCodes);
  }

  lemma {:induction false} HashGuardPasses(c: Contract, s: Snapshot)
    ensures GuardHash(c, s).None? <==> s.methodSetHash == Some(MethodSetHash.ClientHash(s.methods, c.collation))
  {
    MethodSetHash.HashesAreSixteenDigits(s.methods, c.collation);
  }

  lemma {:induction false} ListGuardsPass(c: Contract, s: Snapshot)
    ensures GuardCanonical(c, s).None? <==> forall m | m in s.methods :: m in c.canonicalMethods
    ensures GuardFeatures(c, s).None? <==> forall f | IsRequired(c, s, f) :: f in s.features
  {
    NothingRejected(s.methods, c.canonicalMethods);
    NothingRejected(Required(c, s), s.features);
  }

  /** Both versions are dates, and the required one is not after the other. */
  lemma {:induction false} MinimumMeans(c: Contract, version: string)
    ensures AtLeastMinimum(c, Some(version)) <==>
            && ParseDate(c.minimumVersion).Some? && ParseDate(version).Some?
            && NotAfter(ParseDate(c.minimumVersion).value, ParseDate(version).value)
  {
    if version == "" {
      assert Text.Trim(version) == "";
    }
    if ParseDate(c.minimumVersion).Some? && ParseDate(version).Some? {
      VersionOrderIsChronological(c.minimumVersion, version, ParseDate(c.minimumVersion).value,
                                  ParseDate(version).value);
    }
  }

  lemma {:induction false} RejectedAre<T>(items: seq<T>, allowed: set<T>, x: T)
    ensures x in Rejected(items, allowed) <==> x in items && x !in allowed
  {
    if items != [] {
      RejectedAre(items[1..], allowed, x);
      assert items == [items[0]] + items[1..];
    }
  }

  /** Of a snapshot at or above the minimum version: this is what it fails first, in the order of the guards. */
  ghost predicate IsFirstFailure(c: Contract, s: Snapshot, e: GuardError) {
    var computed := MethodSetHash.ClientHash(s.methods, c.collation);
    var hashed := s.methodSetHash == Some(computed);
    var canonical := hashed && IsKnownProfile(s.profile) && forall m | m in s.methods :: m in c.canonicalMethods;
    var featured := canonical && forall f | IsRequired(c, s, f) :: f in s.features;
    match e
    case VersionMismatch(_, _) => false
    case HashMissing => s.methodSetHash == None || s.methodSetHash == Some("")
    case HashMismatch(advertised, expected) =>
      s.methodSetHash == Some(advertised) && advertised != "" && advertised != computed && expected == computed
    case ProfileMismatch(profile) => hashed && s.profile == Some(profile) && !IsKnownProfile(s.profile)
    case NonCanonicalMethods(methods) =>
      && hashed && IsKnownProfile(s.profile) && methods != []
      && forall m :: m in methods <==> m in s.methods && m !in c.canonicalMethods
    case MissingFeatures(features) =>
      canonical && features != [] && forall f :: f in features <==> IsRequired(c, s, f) && f !in s.features
    case FreezeMismatch(date) => featured && date == s.freezeEffectiveAt && date != Some(c.freezeEffectiveAt)
    case ErrorCodesMismatch(codes) =>
      && featured && s.freezeEffectiveAt == Some(c.freezeEffectiveAt)
      && codes == s.errorCodes && codes != Some(c.errorCodes)
  }

  lemma {:induction false} HashFailureIsFirst(c: Contract, s: Snapshot)
    requires GuardHash(c, s).Some?
    ensures IsFirstFailure(c, s, GuardHash(c, s).value)
  {
  }

  lemma {:induction false} ListFailuresName(c: Contract, s: Snapshot)
    ensures forall m :: m in Rejected(s.methods, c.canonicalMethods) <==> m in s.methods && m !in c.canonicalMethods
    ensures forall f :: f in Rejected(Required(c, s), s.features) <==> IsRequired(c, s, f) && f !in s.features
  {
    forall m ensures m in Rejected(s.methods, c.canonicalMethods) <==> m in s.methods && m !in c.canonicalMethods {
      RejectedAre(s.methods, c.canonicalMethods, m);
    }
    forall f ensures f in Rejected(Required(c, s), s.features) <==> IsRequired(c, s, f) && f !in s.features {
      RejectedAre(Required(c, s), s.features, f);
    }
  }

  lemma {:induction false} ListFailureIsFirst(c: Contract, s: Snapshot, e: GuardError)
    requires s.methodSetHash == Some(MethodSetHash.ClientHash(s.methods, c.collation)) && IsKnownProfile(s.profile)
    requires GuardCanonical(c, s) == Some(e) || (GuardCanonical(c, s).None? && GuardFeatures(c, s) == Some(e))
    ensures IsFirstFailure(c, s, e)
  {
    ListFailuresName(c, s);
    ListGuardsPass(c, s);
  }

  lemma {:induction false} LaterFailureIsFirst(c: Contract, s: Snapshot)
    requires LaterFailure(c, s).Some?
    ensures IsFirstFailure(c, s, LaterFailure(c, s).value)
  {
    HashGuardPasses(c, s);
    if GuardHash(c, s).Some? {
      HashFailureIsFirst(c, s);
    } else if GuardProfile(s).None? {
      ListGuardsPass(c, s);
      StringMapsEqualIsEquality(s.errorCodes, c.errorCodes);
      if GuardCanonical(c, s).Some? {
        ListFailureIsFirst(c, s, GuardCanonical(c, s).value);
      } else if GuardFeatures(c, s).Some? {
        ListFailureIsFirst(c, s, GuardFeatures(c, s).value);
      }
    }
  }

  /**
  The error a refused snapshot gets: about its version when that is below the minimum or no date, and otherwise about
  the first thing it fails, with what was advertised and what was expected.
  */
  lemma {:induction false} RefusalsName(c: Contract, s: Snapshot)
    requires ParseVersion(c.minimumVersion).Some? && Guard(c, s).Some?
    ensures HasVersion(s)
    ensures if AtLeastMinimum(c, s.contractVersion) then IsFirstFailure(c, s, Guard(c, s).value)
            else Guard(c, s).value == VersionMismatch(s.contractVersion.value, c.minimumVersion)
  {
    VersionPassesExactlyFromTheMinimum(c, s);
    if AtLeastMinimum(c, s.contractVersion) {
      LaterFailureIsFirst(c, s);
    }
  }

  lemma {:induction false} DigitByDigit(s: string)
    requires forall i | 0 <= i < |s| :: IsDigit(s[i])
    ensures |s| == 1 ==> ParseInt(s) == s[0] as int - '0' as int
    ensures |s| == 2 ==> ParseInt(s) == 10 * (s[0] as int - '0' as int) + (s[1] as int - '0' as int)
  {
    if |s| == 1 {
      assert s[..0] == "";
    } else if |s| == 2 {
      DigitByDigit(s[..1]);
    }
  }

  lemma {:induction false} FourDigits(s: string)
    requires |s| == 4 && forall i | 0 <= i < |s| :: IsDigit(s[i])
    ensures ParseInt(s) == 100 * ParseInt(s[..2]) + ParseInt(s[2..])
  {
    DigitByDigit(s[2..]);
    assert s[..3][..2] == s[..2];
  }

  lemma {:induction false} FieldsOfMinimum()
    ensures IsoShape("2026-03-22") && Fields("2026-03-22") == Date(2026, 3, 22)
  {
    var v := "2026-03-22";
    DigitByDigit(v[..4][..2]);
    DigitByDigit(v[..4][2..]);
    FourDigits(v[..4]);
    DigitByDigit(v[5..7]);
    DigitByDigit(v[8..]);
  }

  lemma {:induction false} NothingToTrim(s: string)
    requires Text.Trimmed(s)
    ensures Text.Trim(s) == s
  {
  }

  /** The version date the source requires today is a calendar date, so the guards above are never all skipped. */
  lemma {:induction false} CurrentMinimumIsADate()
    ensures ParseVersion("2026-03-22") == Some(20260322)
  {
    NothingToTrim("2026-03-22");
    FieldsOfMinimum();
    VersionsAreCalendarDates("2026-03-22", "2026-03-22");
  }
}
