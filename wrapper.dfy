/** The analytics of lib/wrapper.rb: a wrapper reads the sections a reader has parsed and
    reshapes them into records: operating-system versions with their share of users,
    the same grouped by major version, the top devices, and the gender and age splits. */
module StatsWrapper {
  import opened Common
  import opened Text
  import opened Csv
  import opened StatsReader
  import opened DeviceUtils
  import opened Grouping

  const OsColumn: string := "OS with version"
  const UsersColumn: string := "Users"
  const GenderColumn: string := "Gender"
  const CategoryColumn: string := "Category"
  const MaleColumn: string := "Male"
  const FemaleColumn: string := "Female"

  /** One row of `os_version`. */
  datatype VersionRecord = VersionRecord(version: Option<string>, count: int, percentage: real)

  /** One row of `os_grouped`. */
  datatype GroupRecord = GroupRecord(version: string, total: int, percentage: real)

  /** One row of `devices`; `friendly` is `None` when the key is absent and `Some(name)`
      when it is present, `name` itself being nil only for a row without a model. */
  datatype DeviceRecord = DeviceRecord(model: Option<string>, friendly: Option<Option<string>>, count: int)

  /** One row of `gender`: both cells exactly as they were read. */
  datatype GenderRecord = GenderRecord(gender: Option<string>, count: Option<string>)

  /** One row of `gender_age`. */
  datatype AgeRecord = AgeRecord(age: Option<string>, male: real, female: real)

  // ---------------------------------------------------------------------------------------
  // Reading cells

  /** The rows of a parsed section; a section the reader never stored is nil in Ruby, and
      every method that walks it fails. */
  function SectionRows(data: map<Section, Table>, s: Section): (r: Result<seq<Row>, Fault>)
    ensures r.Ok? <==> s in data
    ensures r.Ok? ==> r.value == data[s].rows
    ensures r.Err? ==> r.error == NoSection
  {
    if s in data then Ok(data[s].rows) else Err(NoSection)
  }

  /** `row['Users'].to_i`; a missing cell is nil and `nil.to_i` is 0. */
  function Users(row: Row): int {
    ToI(Field(row, UsersColumn).GetOr(""))
  }

  /** `row['Users'].to_f`; a missing cell gives 0.0. */
  function UsersF(row: Row): real {
    ToF(Field(row, UsersColumn).GetOr(""))
  }

  /** A missing cell reads as zero users. */
  lemma UsersOfMissing(row: Row)
    requires UsersColumn !in row
    ensures Users(row) == 0 && UsersF(row) == 0.0
  {
  }

  // ---------------------------------------------------------------------------------------
  // filter_os

  /** The `:android` block of `filter_os`. */
  predicate IsAndroidOs(row: Row) {
    OsColumn in row && Contains(Lower(row[OsColumn]), "android")
  }

  /** The `:ios` block of `filter_os`. */
  predicate IsIosOs(row: Row) {
    OsColumn in row && Contains(Lower(row[OsColumn]), "ios")
  }

  /** `filter_os`: `:android` and `:ios` keep the rows whose lower-cased label mentions the
      platform, any other platform keeps the table; a row without a label makes both
      filters fail. */
  function FilterOs(rows: seq<Row>, platform: Platform): (r: Result<seq<Row>, Fault>)
    ensures r.Err? <==> (platform == Ios || platform == Android) && !AllHave(rows, OsColumn)
    ensures r.Err? ==> r.error == NilCell(OsColumn)
    ensures r.Ok? ==> |r.value| <= |rows|
    ensures r.Ok? && platform == Android ==> forall i :: 0 <= i < |r.value| ==> IsAndroidOs(r.value[i])
    ensures r.Ok? && platform == Ios ==> forall i :: 0 <= i < |r.value| ==> IsIosOs(r.value[i])
    ensures platform == All || platform == Other ==> r == Ok(rows)
  {
    match platform
    case Android => if AllHave(rows, OsColumn) then Ok(Select(rows, IsAndroidOs)) else Err(NilCell(OsColumn))
    case Ios => if AllHave(rows, OsColumn) then Ok(Select(rows, IsIosOs)) else Err(NilCell(OsColumn))
    case _ => Ok(rows)
  }

  /** A row survives `filter_os` exactly when it is in the table and its lower-cased label
      mentions the platform. */
  lemma FilterOsMember(rows: seq<Row>, row: Row)
    requires AllHave(rows, OsColumn)
    ensures row in FilterOs(rows, Android).value <==> row in rows && Contains(Lower(row[OsColumn]), "android")
    ensures row in FilterOs(rows, Ios).value <==> row in rows && Contains(Lower(row[OsColumn]), "ios")
  {
    SelectMember(rows, IsAndroidOs, row);
    SelectMember(rows, IsIosOs, row);
    if row in rows {
      var i :| 0 <= i < |rows| && rows[i] == row;
      assert OsColumn in rows[i];
    }
  }

  /** `filter_os` keeps the order of the table: filtering two tables laid end to end is
      filtering each of them. */
  lemma FilterOsAppend(a: seq<Row>, b: seq<Row>, platform: Platform)
    requires AllHave(a, OsColumn) && AllHave(b, OsColumn)
    ensures AllHave(a + b, OsColumn)
    ensures FilterOs(a + b, platform).value == FilterOs(a, platform).value + FilterOs(b, platform).value
  {
    assert forall i :: 0 <= i < |a + b| ==> (a + b)[i] == if i < |a| then a[i] else b[i - |a|];
    SelectAppend(a, b, IsAndroidOs);
    SelectAppend(a, b, IsIosOs);
  }

  /** The rows `os_version` and `os_total` walk. */
  function OsRows(data: map<Section, Table>, platform: Platform): Result<seq<Row>, Fault> {
    match SectionRows(data, OsVersion)
    case Err(e) => Err(e)
    case Ok(rows) => FilterOs(rows, platform)
  }

  /** What `os_total` computes: the users of the filtered rows, added up. */
  function OsTotalOf(data: map<Section, Table>, platform: Platform): Result<int, Fault> {
    match OsRows(data, platform)
    case Err(e) => Err(e)
    case Ok(rows) => Ok(SumOf(rows, Users))
  }

  // ---------------------------------------------------------------------------------------
  // Rounding and as_percentage

  /** The integer nearest to `y`, halves going away from zero (C's `round`). */
  function RoundHalfAway(y: real): (n: int)
    ensures -0.5 <= n as real - y <= 0.5
    ensures n as real - y == 0.5 ==> y > 0.0
    ensures n as real - y == -0.5 ==> y < 0.0
  {
    if y >= 0.0 then (y + 0.5).Floor else -((-y + 0.5).Floor)
  }

  /** `Float#round(k)`, with `scale` standing for `10^k` (100.0 for two places, 10000.0
      for four): `x` scaled, rounded half away from zero, and scaled back. */
  function Round(x: real, scale: real): real
    requires scale > 0.0
  {
    RoundHalfAway(x * scale) as real / scale
  }

  /** Rounding moves a value by at most half a unit in the last place, and leaves a whole
      number of such units. */
  lemma RoundError(x: real, scale: real)
    requires scale > 0.0
    ensures -0.5 <= (Round(x, scale) - x) * scale <= 0.5
    ensures (Round(x, scale) * scale).Floor as real == Round(x, scale) * scale
  {
    var n := RoundHalfAway(x * scale);
    assert Round(x, scale) == n as real / scale;
    ScaleBack(n, x, scale);
    assert Round(x, scale) * scale == n as real;
    assert (Round(x, scale) - x) * scale == n as real - x * scale;
    assert (n as real).Floor == n;
  }

  /** Dividing a whole number of units by the scale and multiplying back is exact. */
  lemma ScaleBack(n: int, x: real, s: real)
    requires s > 0.0
    ensures (n as real / s) * s == n as real
    ensures (n as real / s - x) * s == n as real - x * s
  {
    var q := n as real / s;
    assert q * s == n as real;
    assert (q - x) * s == q * s - x * s;
  }

  /** `as_percentage`: the share of `value` in `total`, in percent, to four places below
      0.01 and to two places otherwise. Ruby divides floats, so a zero total gives Infinity
      or NaN; callers here report that case instead. */
  function AsPercentage(total: int, value: real): real
    requires total != 0
  {
    var p := value / total as real * 100.0;
    if p < 0.01 then Round(p, 10000.0) else Round(p, 100.0)
  }

  /** The percentage is the exact share to within half a unit of its last place, and a
      whole number of such units. */
  lemma AsPercentageBound(total: int, value: real)
    requires total != 0
    ensures var p := value / total as real * 100.0;
            var r := AsPercentage(total, value);
            if p < 0.01 then -0.00005 <= r - p <= 0.00005 && (r * 10000.0).Floor as real == r * 10000.0
            else -0.005 <= r - p <= 0.005 && (r * 100.0).Floor as real == r * 100.0
  {
    var p := value / total as real * 100.0;
    if p < 0.01 {
      RoundError(p, 10000.0);
    } else {
      RoundError(p, 100.0);
    }
  }

  /** A third is 33.33 percent, a twentieth of a percent keeps four places, and a value
      just below 0.01 percent rounds up to it. */
  lemma AsPercentageExamples()
    ensures AsPercentage(3, 1.0) == 33.33
    ensures AsPercentage(20000, 1.0) == 0.005
    ensures AsPercentage(100000, 0.99995) == 0.001
  {
  }

  // ---------------------------------------------------------------------------------------
  // Version keys of os_grouped

  /** The pattern `(<prefix>[0-9]{1,2})` can start matching at position `i`. */
  predicate Marked(text: string, prefix: string, i: nat) {
    i + |prefix| < |text| && text[i..i + |prefix|] == prefix && IsDigit(text[i + |prefix|])
  }

  /** The first position from `i` on where the pattern matches. */
  function MarkFrom(text: string, prefix: string, i: nat): (r: Option<nat>)
    ensures r.Some? ==> i <= r.value && Marked(text, prefix, r.value)
    ensures r.Some? ==> forall j :: i <= j < r.value ==> !Marked(text, prefix, j)
    ensures r.None? ==> forall j :: i <= j ==> !Marked(text, prefix, j)
    decreases |text| - i
  {
    if i >= |text| then None
    else if Marked(text, prefix, i) then Some(i)
    else MarkFrom(text, prefix, i + 1)
  }

  /** What `[0-9]{1,2}` takes from a text that starts with a digit: the second digit too
      when there is one. */
  function Digits12(s: string): (d: string)
    requires s != [] && IsDigit(s[0])
    ensures 1 <= |d| <= 2 && |d| <= |s| && d == s[..|d|]
    ensures forall k :: 0 <= k < |d| ==> IsDigit(d[k])
    ensures |d| == 1 ==> |s| == 1 || !IsDigit(s[1])
  {
    if |s| >= 2 && IsDigit(s[1]) then s[..2] else s[..1]
  }

  /** `label.match("(<prefix>[0-9]{1,2})")&.captures&.first`: the leftmost match, with as
      many digits as it can take. */
  function VersionKey(text: string, prefix: string): (r: Option<string>)
    ensures r.Some? <==> exists i :: Marked(text, prefix, i)
    ensures r.Some? ==> |prefix| < |r.value| <= |prefix| + 2 && r.value[..|prefix|] == prefix
    ensures r.Some? ==> forall k :: |prefix| <= k < |r.value| ==> IsDigit(r.value[k])
  {
    match MarkFrom(text, prefix, 0)
    case None => None
    case Some(i) => Some(prefix + Digits12(text[i + |prefix|..]))
  }

  /** The match is taken where the pattern first fits, and the key occurs there. */
  lemma VersionKeyLeftmost(text: string, prefix: string)
    requires VersionKey(text, prefix).Some?
    ensures exists i: nat :: Marked(text, prefix, i) && (forall j: nat :: 0 <= j < i ==> !Marked(text, prefix, j))
                     && i + |VersionKey(text, prefix).value| <= |text|
                     && text[i..i + |VersionKey(text, prefix).value|] == VersionKey(text, prefix).value
  {
    var i := MarkFrom(text, prefix, 0).value;
    var key := VersionKey(text, prefix).value;
    var d := Digits12(text[i + |prefix|..]);
    assert key == prefix + d;
    assert text[i..i + |key|] == text[i..i + |prefix|] + text[i + |prefix|..][..|d|];
  }

  /** A minor version does not reach the key, a single digit is a whole key, and a label
      without digits after the prefix has none. */
  lemma VersionKeyExamples()
    ensures VersionKey("iOS 16.4.1", "iOS ") == Some("iOS 16")
    ensures VersionKey("Android 9", "Android ") == Some("Android 9")
    ensures VersionKey("iOS", "iOS ").None?
  {
    assert "iOS 16.4.1"[0..4] == "iOS ";
    assert MarkFrom("iOS 16.4.1", "iOS ", 0) == Some(0);
    assert "iOS 16.4.1"[4..] == "16.4.1";
    assert Digits12("16.4.1") == "16";
    assert "iOS " + "16" == "iOS 16";
    assert "Android 9"[0..8] == "Android ";
    assert MarkFrom("Android 9", "Android ", 0) == Some(0);
    assert "Android 9"[8..] == "9";
    assert Digits12("9") == "9";
    assert "Android " + "9" == "Android 9";
  }

  const IosPrefix: string := "iOS "
  const AndroidPrefix: string := "Android "

  /** The OS label of a row; rows reaching the grouping all have one. */
  function Label(row: Row): string {
    Field(row, OsColumn).GetOr("")
  }

  /** The label of the first row the pattern does not match, if any: `captures` on nil. */
  function Unversioned(rows: seq<Row>, prefix: string): (r: Option<string>)
    ensures r.None? <==> forall i :: 0 <= i < |rows| ==> VersionKey(Label(rows[i]), prefix).Some?
    ensures r.Some? ==> VersionKey(r.value, prefix).None?
    ensures r.Some? ==> exists i :: 0 <= i < |rows| && Label(rows[i]) == r.value
  {
    if rows == [] then None
    else if VersionKey(Label(rows[0]), prefix).None? then Some(Label(rows[0]))
    else
      var r := Unversioned(rows[1..], prefix);
      assert forall i :: 1 <= i < |rows| ==> rows[i] == rows[1..][i - 1];
      r
  }

  /** The key a row is grouped under; the fallback is never used, because rows without a
      version stop the grouping first. */
  function KeyOrPrefix(text: string, prefix: string): (k: string)
    ensures |prefix| <= |k| && k[..|prefix|] == prefix
  {
    match VersionKey(text, prefix)
    case Some(k) => k
    case None => prefix
  }

  function IosKey(row: Row): string {
    KeyOrPrefix(Label(row), IosPrefix)
  }

  function AndroidKey(row: Row): string {
    KeyOrPrefix(Label(row), AndroidPrefix)
  }

  /** `filter_os(rows, platform).group_by { |row| <version key of row> }`. */
  function VersionGroups(rows: seq<Row>, platform: Platform, prefix: string, key: Row -> string): Result<seq<Group<Row>>, Fault> {
    match FilterOs(rows, platform)
    case Err(e) => Err(e)
    case Ok(kept) =>
      match Unversioned(kept, prefix)
      case Some(text) => Err(NoVersion(text))
      case None => Ok(GroupBy(kept, key))
  }

  /** `ios_os_group`. */
  function IosGroups(rows: seq<Row>): Result<seq<Group<Row>>, Fault> {
    VersionGroups(rows, Ios, IosPrefix, IosKey)
  }

  /** `android_os_group`. */
  function AndroidGroups(rows: seq<Row>): Result<seq<Group<Row>>, Fault> {
    VersionGroups(rows, Android, AndroidPrefix, AndroidKey)
  }

  /** The grouping `os_grouped` walks: one platform's groups, or for any other platform the
      Android groups merged with the iOS groups. */
  function OsGroups(rows: seq<Row>, platform: Platform): Result<seq<Group<Row>>, Fault> {
    match platform
    case Ios => IosGroups(rows)
    case Android => AndroidGroups(rows)
    case _ =>
      match AndroidGroups(rows)
      case Err(e) => Err(e)
      case Ok(a) =>
        match IosGroups(rows)
        case Err(e) => Err(e)
        case Ok(b) => Ok(Merge(a, b))
  }

  /** `filter_os(:ios)` reads the label case-insensitively but the version pattern is
      case-sensitive: an "IOS 16" row is kept by the filter and then stops the grouping. */
  lemma IosGroupsCaseMismatch()
    ensures var row := map[OsColumn := "IOS 16"];
            FilterOs([row], Ios) == Ok([row]) && IosGroups([row]) == Err(NoVersion("IOS 16"))
  {
    var row := map[OsColumn := "IOS 16"];
    UpperIosKept(row);
    UpperIosUnversioned();
    assert Label(row) == "IOS 16";
    assert Unversioned([row], IosPrefix) == Some("IOS 16");
  }

  lemma UpperIosKept(row: Row)
    requires row == map[OsColumn := "IOS 16"]
    ensures FilterOs([row], Ios) == Ok([row])
  {
    assert Lower("IOS 16") == "ios 16";
    assert StartsWith(Lower("IOS 16"), "ios");
    assert row[OsColumn] == "IOS 16";
    assert IsIosOs(row);
    assert AllHave([row], OsColumn);
    assert Select([row], IsIosOs) == [row] by {
      assert [row][..0] == [];
    }
  }

  lemma UpperIosUnversioned()
    ensures VersionKey("IOS 16", IosPrefix).None?
  {
    var text := "IOS 16";
    assert text[0..4][0] != IosPrefix[0];
    assert text[1..5][0] != IosPrefix[0];
    forall i: nat ensures !Marked(text, IosPrefix, i) {
      if i >= 2 {
        assert i + |IosPrefix| >= |text|;
      }
    }
  }

  /** The prefix followed by one or two digits. */
  predicate VersionShaped(s: string, prefix: string) {
    |prefix| < |s| <= |prefix| + 2 && s[..|prefix|] == prefix && forall k :: |prefix| <= k < |s| ==> IsDigit(s[k])
  }

  lemma VersionGroupsKeys(rows: seq<Row>, platform: Platform, prefix: string, key: Row -> string)
    requires forall row :: key(row) == KeyOrPrefix(Label(row), prefix)
    requires VersionGroups(rows, platform, prefix, key).Ok?
    ensures forall j :: 0 <= j < |VersionGroups(rows, platform, prefix, key).value| ==>
              VersionShaped(VersionGroups(rows, platform, prefix, key).value[j].key, prefix)
  {
    var kept := FilterOs(rows, platform).value;
    forall i | 0 <= i < |kept| ensures VersionShaped(key(kept[i]), prefix) {
      assert VersionKey(Label(kept[i]), prefix).Some?;
    }
    GroupByKeys(kept, key, s => VersionShaped(s, prefix));
  }

  /** The groups of `os_grouped` are keyed by major version: "iOS " or "Android " and one
      or two digits; without a platform filter they are the Android groups followed by the
      iOS groups, since no key can be in both. */
  lemma {:induction false} GroupedKeys(rows: seq<Row>, platform: Platform)
    requires OsGroups(rows, platform).Ok?
    ensures platform == Ios ==> forall j :: 0 <= j < |OsGroups(rows, platform).value| ==>
              VersionShaped(OsGroups(rows, platform).value[j].key, IosPrefix)
    ensures platform == Android ==> forall j :: 0 <= j < |OsGroups(rows, platform).value| ==>
              VersionShaped(OsGroups(rows, platform).value[j].key, AndroidPrefix)
    ensures platform == All || platform == Other ==>
              OsGroups(rows, platform).value == AndroidGroups(rows).value + IosGroups(rows).value
    ensures forall j :: 0 <= j < |OsGroups(rows, platform).value| ==>
              VersionShaped(OsGroups(rows, platform).value[j].key, IosPrefix) ||
              VersionShaped(OsGroups(rows, platform).value[j].key, AndroidPrefix)
    ensures DistinctKeys(OsGroups(rows, platform).value)
  {
    if platform == Ios || platform == All || platform == Other {
      VersionGroupsKeys(rows, Ios, IosPrefix, IosKey);
    }
    if platform == Android || platform == All || platform == Other {
      VersionGroupsKeys(rows, Android, AndroidPrefix, AndroidKey);
    }
    if platform == All || platform == Other {
      MergeGroups(AndroidGroups(rows).value, IosGroups(rows).value);
    }
  }

  /** Android groups and iOS groups share no key, so merging lays them end to end. */
  lemma MergeGroups(a: seq<Group<Row>>, b: seq<Group<Row>>)
    requires DistinctKeys(a) && DistinctKeys(b)
    requires forall i :: 0 <= i < |a| ==> VersionShaped(a[i].key, AndroidPrefix)
    requires forall j :: 0 <= j < |b| ==> VersionShaped(b[j].key, IosPrefix)
    ensures Merge(a, b) == a + b
    ensures DistinctKeys(a + b)
    ensures forall k :: 0 <= k < |a + b| ==>
              VersionShaped((a + b)[k].key, AndroidPrefix) || VersionShaped((a + b)[k].key, IosPrefix)
  {
    forall k | 0 <= k < |a + b|
      ensures VersionShaped((a + b)[k].key, AndroidPrefix) || VersionShaped((a + b)[k].key, IosPrefix)
    {
      if k >= |a| {
        assert (a + b)[k] == b[k - |a|];
      }
    }
    forall i, j | 0 <= i < |a| && 0 <= j < |b| ensures a[i].key != b[j].key {
      assert a[i].key[0] == AndroidPrefix[0];
      assert b[j].key[0] == IosPrefix[0];
    }
    MergeDisjoint(a, b);
    forall i, j | 0 <= i < j < |a + b| ensures (a + b)[i].key != (a + b)[j].key {
      if j < |a| {
      } else if i >= |a| {
        assert (a + b)[i] == b[i - |a|] && (a + b)[j] == b[j - |a|];
      } else {
        assert (a + b)[j] == b[j - |a|];
      }
    }
  }

  // ---------------------------------------------------------------------------------------
  // The records

  /** One entry of `os_version`. */
  function VersionRecordOf(row: Row, total: int): VersionRecord
    requires total != 0
  {
    VersionRecord(Field(row, OsColumn), Users(row), AsPercentage(total, UsersF(row)))
  }

  /** What `os_version` returns: a record per filtered row, its share taken of `os_total`. */
  function OsVersionOf(data: map<Section, Table>, platform: Platform): Result<seq<VersionRecord>, Fault> {
    match OsRows(data, platform)
    case Err(e) => Err(e)
    case Ok(rows) => VersionListing(rows, OsTotalOf(data, platform))
  }

  /** The loop of `os_version` over the filtered rows, given what `os_total` answers: no
      row gives no record, and otherwise the total must be known and non-zero. */
  function VersionListing(rows: seq<Row>, total: Result<int, Fault>): Result<seq<VersionRecord>, Fault> {
    if rows == [] then Ok([])
    else
      match total
      case Err(e) => Err(e)
      case Ok(t) => if t == 0 then Err(ZeroTotal) else Ok(VersionRecords(rows, t))
  }

  function VersionRecords(rows: seq<Row>, total: int): seq<VersionRecord>
    requires total != 0
  {
    seq(|rows|, i requires 0 <= i < |rows| => VersionRecordOf(rows[i], total))
  }

  /** One entry of `os_grouped`. */
  function GroupRecordOf(g: Group<Row>, total: int): GroupRecord
    requires total != 0
  {
    GroupRecord(g.key, SumOf(g.items, Users), AsPercentage(total, SumOf(g.items, Users) as real))
  }

  /** What `os_grouped` returns: a record per version group, its share taken of `os_total`. */
  function OsGroupedOf(data: map<Section, Table>, platform: Platform): Result<seq<GroupRecord>, Fault> {
    match SectionRows(data, OsVersion)
    case Err(e) => Err(e)
    case Ok(rows) =>
      match OsGroups(rows, platform)
      case Err(e) => Err(e)
      case Ok(groups) => GroupListing(groups, OsTotalOf(data, platform))
  }

  /** The loop of `os_grouped` over the groups, given what `os_total` answers. */
  function GroupListing(groups: seq<Group<Row>>, total: Result<int, Fault>): Result<seq<GroupRecord>, Fault> {
    if groups == [] then Ok([])
    else
      match total
      case Err(e) => Err(e)
      case Ok(t) => if t == 0 then Err(ZeroTotal) else Ok(GroupRecords(groups, t))
  }

  function GroupRecords(groups: seq<Group<Row>>, total: int): seq<GroupRecord>
    requires total != 0
  {
    seq(|groups|, i requires 0 <= i < |groups| => GroupRecordOf(groups[i], total))
  }

  /** One entry of `devices`: the friendly name is looked up only when asked for and only
      for platforms that can hold Android devices, and falls back to the model. */
  function DeviceRecordOf(row: Row, named: bool, lookup: Option<string> -> Option<string>): DeviceRecord {
    var model := Field(row, ModelColumn);
    DeviceRecord(model, if named then Some(if lookup(model).Some? then lookup(model) else model) else None, Users(row))
  }

  /** The count `take(limit || 10)` is given: the limit, or 10 when it is nil. */
  function Limit(limit: Option<int>): int {
    limit.GetOr(10)
  }

  /** What `devices` returns. */
  function DevicesOf(data: map<Section, Table>, platform: Platform, friendly: bool, limit: Option<int>,
                     lookup: Option<string> -> Option<string>): Result<seq<DeviceRecord>, Fault> {
    match SectionRows(data, Devices)
    case Err(e) => Err(e)
    case Ok(rows) =>
      match FilterDevice(rows, platform)
      case Err(e) => Err(e)
      case Ok(kept) =>
        var n := Limit(limit);
        if n < 0 then Err(NegativeLimit(n))
        else
          var taken := if n < |kept| then kept[..n] else kept;
          var named := friendly && (platform == All || platform == Android);
          Ok(DeviceRecords(taken, named, lookup))
  }

  function DeviceRecords(rows: seq<Row>, named: bool, lookup: Option<string> -> Option<string>): seq<DeviceRecord> {
    seq(|rows|, i requires 0 <= i < |rows| => DeviceRecordOf(rows[i], named, lookup))
  }

  /** What `gender` returns: both cells of every row, as read. */
  function GenderOf(data: map<Section, Table>): Result<seq<GenderRecord>, Fault> {
    match SectionRows(data, Section.Gender)
    case Err(e) => Err(e)
    case Ok(rows) =>
      Ok(seq(|rows|, i requires 0 <= i < |rows| => GenderRecord(Field(rows[i], GenderColumn), Field(rows[i], UsersColumn))))
  }

  /** A fraction of users as a percentage to two places. */
  function Percent(cell: Option<string>): real {
    Round(ToF(cell.GetOr("")) * 100.0, 100.0)
  }

  /** What `gender_age` returns. */
  function GenderAgeOf(data: map<Section, Table>): Result<seq<AgeRecord>, Fault> {
    match SectionRows(data, GenderAge)
    case Err(e) => Err(e)
    case Ok(rows) =>
      Ok(seq(|rows|, i requires 0 <= i < |rows| => AgeRecordOf(rows[i])))
  }

  /** One entry of `gender_age`. */
  function AgeRecordOf(row: Row): AgeRecord {
    AgeRecord(Field(row, CategoryColumn), Percent(Field(row, MaleColumn)), Percent(Field(row, FemaleColumn)))
  }

  // ---------------------------------------------------------------------------------------
  // What the records promise

  /** Every row is labelled and its label mentions exactly one of the two platforms. */
  predicate OnePlatformEach(rows: seq<Row>) {
    AllHave(rows, OsColumn) && forall i :: 0 <= i < |rows| ==> IsIosOs(rows[i]) == !IsAndroidOs(rows[i])
  }

  /** When every label names one platform, the unfiltered total is the iOS total plus the
      Android total. */
  lemma OsTotalSplit(data: map<Section, Table>)
    requires OsVersion in data && OnePlatformEach(data[OsVersion].rows)
    ensures OsTotalOf(data, All).Ok? && OsTotalOf(data, Ios).Ok? && OsTotalOf(data, Android).Ok?
    ensures OsTotalOf(data, All).value == OsTotalOf(data, Ios).value + OsTotalOf(data, Android).value
  {
    SumOfSelect(data[OsVersion].rows, IsIosOs, IsAndroidOs, Users);
  }

  function VersionCount(r: VersionRecord): int {
    r.count
  }

  function VersionShare(r: VersionRecord): real {
    r.percentage
  }

  /** `os_version` has a record per filtered row, labelled as the row is; the counts add up
      to `os_total`, and each percentage is the row's share of it, to within rounding. */
  lemma VersionTotals(data: map<Section, Table>, platform: Platform)
    requires OsVersionOf(data, platform).Ok?
    ensures OsRows(data, platform).Ok? && OsTotalOf(data, platform).Ok?
    ensures var rows := OsRows(data, platform).value;
            var records := OsVersionOf(data, platform).value;
            var total := OsTotalOf(data, platform).value;
            |records| == |rows| &&
            SumOf(records, VersionCount) == total &&
            (records != [] ==> total != 0) &&
            forall i :: 0 <= i < |records| ==>
              records[i].version == Field(rows[i], OsColumn) && records[i].count == Users(rows[i]) &&
              -0.005 <= records[i].percentage - UsersF(rows[i]) / total as real * 100.0 <= 0.005
  {
    var rows := OsRows(data, platform).value;
    var records := OsVersionOf(data, platform).value;
    SumOfPointwise(rows, Users, records, VersionCount);
    forall i | 0 <= i < |records|
      ensures -0.005 <= records[i].percentage - UsersF(rows[i]) / SumOf(rows, Users) as real * 100.0 <= 0.005
    {
      AsPercentageBound(SumOf(rows, Users), UsersF(rows[i]));
    }
  }

  function GroupTotal(r: GroupRecord): int {
    r.total
  }

  /** `os_grouped` conserves users: for one platform its totals add up to `os_total`, and
      so they do without a platform filter when every label names one platform. Each
      version is a major version, and no version is listed twice. */
  lemma GroupedTotals(data: map<Section, Table>, platform: Platform)
    requires OsGroupedOf(data, platform).Ok?
    requires platform == Ios || platform == Android || OnePlatformEach(data[OsVersion].rows)
    ensures OsTotalOf(data, platform).Ok?
    ensures SumOf(OsGroupedOf(data, platform).value, GroupTotal) == OsTotalOf(data, platform).value
    ensures forall i :: 0 <= i < |OsGroupedOf(data, platform).value| ==>
              VersionShaped(OsGroupedOf(data, platform).value[i].version, IosPrefix) ||
              VersionShaped(OsGroupedOf(data, platform).value[i].version, AndroidPrefix)
    ensures forall i, j :: 0 <= i < j < |OsGroupedOf(data, platform).value| ==>
              OsGroupedOf(data, platform).value[i].version != OsGroupedOf(data, platform).value[j].version
  {
    var rows := data[OsVersion].rows;
    var groups := OsGroups(rows, platform).value;
    GroupedKeys(rows, platform);
    GroupsTotal(rows, platform);
    if groups != [] {
      GroupRecordsFacts(groups, OsTotalOf(data, platform).value);
    }
  }

  /** The records of `os_grouped` follow the groups one to one: each is named by its
      group's key and their totals add up to the users held in the groups. */
  lemma GroupRecordsFacts(groups: seq<Group<Row>>, total: int)
    requires total != 0
    requires DistinctKeys(groups)
    requires forall j :: 0 <= j < |groups| ==>
               VersionShaped(groups[j].key, IosPrefix) || VersionShaped(groups[j].key, AndroidPrefix)
    ensures |GroupRecords(groups, total)| == |groups|
    ensures forall i :: 0 <= i < |groups| ==>
              GroupRecords(groups, total)[i].version == groups[i].key &&
              GroupRecords(groups, total)[i].total == SumOf(groups[i].items, Users)
    ensures SumOf(GroupRecords(groups, total), GroupTotal) == Total(groups, Users)
    ensures forall i :: 0 <= i < |GroupRecords(groups, total)| ==>
              VersionShaped(GroupRecords(groups, total)[i].version, IosPrefix) ||
              VersionShaped(GroupRecords(groups, total)[i].version, AndroidPrefix)
    ensures forall i, j :: 0 <= i < j < |GroupRecords(groups, total)| ==>
              GroupRecords(groups, total)[i].version != GroupRecords(groups, total)[j].version
  {
    var records := GroupRecords(groups, total);
    TotalPointwise(groups, Users, records, GroupTotal);
    forall i | 0 <= i < |records|
      ensures VersionShaped(records[i].version, IosPrefix) || VersionShaped(records[i].version, AndroidPrefix)
    {
      assert records[i].version == groups[i].key;
    }
    forall i, j | 0 <= i < j < |records| ensures records[i].version != records[j].version {
      assert records[i].version == groups[i].key && records[j].version == groups[j].key;
    }
  }

  /** The prefix of a platform's version keys. */
  function PlatformPrefix(platform: Platform): string {
    if platform == Ios then IosPrefix else AndroidPrefix
  }

  /** The key a platform's rows are grouped under. */
  function PlatformKey(platform: Platform): Row -> string {
    if platform == Ios then IosKey else AndroidKey
  }

  /** The version groups hold exactly the filtered rows: every row has a version key and a
      group under it, each group holds the rows with its key in table order, and the
      groups come in the order in which their keys first occur. */
  lemma VersionGroupsMembers(rows: seq<Row>, platform: Platform, prefix: string, key: Row -> string)
    requires forall row :: key(row) == KeyOrPrefix(Label(row), prefix)
    requires VersionGroups(rows, platform, prefix, key).Ok?
    ensures FilterOs(rows, platform).Ok?
    ensures var kept := FilterOs(rows, platform).value;
            var groups := VersionGroups(rows, platform, prefix, key).value;
            (forall i :: 0 <= i < |kept| ==>
               VersionKey(Label(kept[i]), prefix) == Some(key(kept[i])) && KeyIndex(groups, key(kept[i])).Some?) &&
            (forall j :: 0 <= j < |groups| ==>
               groups[j].items == WithKey(kept, key, groups[j].key) && groups[j].items != []) &&
            (forall k :: KeyIndex(groups, k).Some? <==> WithKey(kept, key, k) != []) &&
            FirstSeenOrder(groups, kept, key)
  {
    var kept := FilterOs(rows, platform).value;
    var groups := GroupBy(kept, key);
    GroupByMembers(kept, key);
    GroupByOrder(kept, key);
    forall i | 0 <= i < |kept|
      ensures VersionKey(Label(kept[i]), prefix) == Some(key(kept[i])) && KeyIndex(groups, key(kept[i])).Some?
    {
      assert VersionKey(Label(kept[i]), prefix).Some?;
      FirstIndexSpec(kept, key, key(kept[i]));
    }
    forall j | 0 <= j < |groups| ensures groups[j].items != [] {
      KeyIndexFound(groups, j, groups[j].key);
    }
  }

  /** Some record of `os_grouped` is for version `v`. */
  predicate Listed(records: seq<GroupRecord>, v: string) {
    exists i :: 0 <= i < |records| && records[i].version == v
  }

  /** Once `os_grouped` succeeds, its records follow the platform's groups one to one,
      each named by its group's key and totalling the group's users. */
  lemma GroupedRecords(data: map<Section, Table>, platform: Platform)
    requires OsGroupedOf(data, platform).Ok?
    ensures OsVersion in data && OsGroups(data[OsVersion].rows, platform).Ok?
    ensures var groups := OsGroups(data[OsVersion].rows, platform).value;
            var records := OsGroupedOf(data, platform).value;
            |records| == |groups| &&
            forall i :: 0 <= i < |groups| ==>
              records[i].version == groups[i].key && records[i].total == SumOf(groups[i].items, Users)
  {
    var groups := OsGroups(data[OsVersion].rows, platform).value;
    GroupedKeys(data[OsVersion].rows, platform);
    if groups != [] {
      GroupRecordsFacts(groups, OsTotalOf(data, platform).value);
    }
  }

  /** For one platform, `os_grouped` accounts for every filtered row: each record's total
      is the users of exactly the rows whose version key is the record's version, every
      row's key is the version of some record, and the records come in the order in which
      their versions first occur in the table. */
  lemma GroupedMembers(data: map<Section, Table>, platform: Platform)
    requires platform == Ios || platform == Android
    requires OsGroupedOf(data, platform).Ok?
    ensures OsRows(data, platform).Ok?
    ensures var kept := OsRows(data, platform).value;
            var records := OsGroupedOf(data, platform).value;
            var key := PlatformKey(platform);
            (forall i :: 0 <= i < |records| ==>
               records[i].total == SumOf(WithKey(kept, key, records[i].version), Users) &&
               WithKey(kept, key, records[i].version) != []) &&
            (forall r :: 0 <= r < |kept| ==>
               VersionKey(Label(kept[r]), PlatformPrefix(platform)) == Some(key(kept[r])) &&
               Listed(records, key(kept[r]))) &&
            (forall i, j :: 0 <= i < j < |records| ==>
               FirstIndex(kept, key, records[i].version) < FirstIndex(kept, key, records[j].version))
  {
    var rows := data[OsVersion].rows;
    var key := PlatformKey(platform);
    var prefix := PlatformPrefix(platform);
    GroupedRecords(data, platform);
    assert OsGroups(rows, platform) == VersionGroups(rows, platform, prefix, key);
    VersionGroupsMembers(rows, platform, prefix, key);
    RecordsMembers(FilterOs(rows, platform).value, key, VersionGroups(rows, platform, prefix, key).value,
                   OsGroupedOf(data, platform).value);
  }

  /** Records that follow groups one to one inherit what the groups say of the rows. */
  lemma RecordsMembers(kept: seq<Row>, key: Row -> string, groups: seq<Group<Row>>, records: seq<GroupRecord>)
    requires forall i :: 0 <= i < |kept| ==> KeyIndex(groups, key(kept[i])).Some?
    requires forall j :: 0 <= j < |groups| ==>
               groups[j].items == WithKey(kept, key, groups[j].key) && groups[j].items != []
    requires FirstSeenOrder(groups, kept, key)
    requires |records| == |groups|
    requires forall i :: 0 <= i < |groups| ==>
               records[i].version == groups[i].key && records[i].total == SumOf(groups[i].items, Users)
    ensures forall i :: 0 <= i < |records| ==>
              records[i].total == SumOf(WithKey(kept, key, records[i].version), Users) &&
              WithKey(kept, key, records[i].version) != []
    ensures forall r :: 0 <= r < |kept| ==> Listed(records, key(kept[r]))
    ensures forall i, j :: 0 <= i < j < |records| ==>
              FirstIndex(kept, key, records[i].version) < FirstIndex(kept, key, records[j].version)
  {
    forall r | 0 <= r < |kept| ensures Listed(records, key(kept[r])) {
      var i := KeyIndex(groups, key(kept[r])).value;
      assert records[i].version == key(kept[r]);
    }
  }

  /** Without a platform filter, each record of `os_grouped` totals the users of exactly
      the rows of either platform whose key is its version. */
  lemma GroupedBothTotals(data: map<Section, Table>, platform: Platform)
    requires platform == All || platform == Other
    requires OsGroupedOf(data, platform).Ok?
    ensures OsVersion in data && FilterOs(data[OsVersion].rows, Android).Ok? && FilterOs(data[OsVersion].rows, Ios).Ok?
    ensures var android := FilterOs(data[OsVersion].rows, Android).value;
            var ios := FilterOs(data[OsVersion].rows, Ios).value;
            var records := OsGroupedOf(data, platform).value;
            forall i :: 0 <= i < |records| ==>
              records[i].total == SumOf(WithKey(android, AndroidKey, records[i].version), Users)
                                  + SumOf(WithKey(ios, IosKey, records[i].version), Users)
  {
    var rows := data[OsVersion].rows;
    GroupedRecords(data, platform);
    GroupedKeys(rows, platform);
    VersionGroupsKeys(rows, Android, AndroidPrefix, AndroidKey);
    VersionGroupsKeys(rows, Ios, IosPrefix, IosKey);
    VersionGroupsMembers(rows, Android, AndroidPrefix, AndroidKey);
    VersionGroupsMembers(rows, Ios, IosPrefix, IosKey);
    BothTotals(FilterOs(rows, Android).value, FilterOs(rows, Ios).value,
               AndroidGroups(rows).value, IosGroups(rows).value, OsGroupedOf(data, platform).value);
  }

  /** Without a platform filter, every row of either platform has its version listed by
      `os_grouped`. */
  lemma GroupedBothNamed(data: map<Section, Table>, platform: Platform)
    requires platform == All || platform == Other
    requires OsGroupedOf(data, platform).Ok?
    ensures OsVersion in data && FilterOs(data[OsVersion].rows, Android).Ok? && FilterOs(data[OsVersion].rows, Ios).Ok?
    ensures var android := FilterOs(data[OsVersion].rows, Android).value;
            var records := OsGroupedOf(data, platform).value;
            forall r :: 0 <= r < |android| ==> Listed(records, AndroidKey(android[r]))
    ensures var ios := FilterOs(data[OsVersion].rows, Ios).value;
            var records := OsGroupedOf(data, platform).value;
            forall r :: 0 <= r < |ios| ==> Listed(records, IosKey(ios[r]))
  {
    var rows := data[OsVersion].rows;
    GroupedRecords(data, platform);
    GroupedKeys(rows, platform);
    VersionGroupsMembers(rows, Android, AndroidPrefix, AndroidKey);
    VersionGroupsMembers(rows, Ios, IosPrefix, IosKey);
    BothNamed(FilterOs(rows, Android).value, FilterOs(rows, Ios).value,
              AndroidGroups(rows).value, IosGroups(rows).value, OsGroupedOf(data, platform).value);
  }

  /** Without a platform filter `os_grouped` lists the Android versions, in the order in
      which they first occur among the Android rows, and then the iOS versions, in the
      order in which they first occur among the iOS rows. */
  lemma GroupedBothOrder(data: map<Section, Table>, platform: Platform)
    requires platform == All || platform == Other
    requires OsGroupedOf(data, platform).Ok?
    ensures OsVersion in data && FilterOs(data[OsVersion].rows, Android).Ok? && FilterOs(data[OsVersion].rows, Ios).Ok?
    ensures var android := FilterOs(data[OsVersion].rows, Android).value;
            var records := OsGroupedOf(data, platform).value;
            forall i, j :: 0 <= i < j < |records| && VersionShaped(records[j].version, AndroidPrefix) ==>
              VersionShaped(records[i].version, AndroidPrefix) &&
              FirstIndex(android, AndroidKey, records[i].version) < FirstIndex(android, AndroidKey, records[j].version)
    ensures var ios := FilterOs(data[OsVersion].rows, Ios).value;
            var records := OsGroupedOf(data, platform).value;
            forall i, j :: 0 <= i < j < |records| && VersionShaped(records[i].version, IosPrefix) ==>
              VersionShaped(records[j].version, IosPrefix) &&
              FirstIndex(ios, IosKey, records[i].version) < FirstIndex(ios, IosKey, records[j].version)
  {
    var rows := data[OsVersion].rows;
    GroupedRecords(data, platform);
    GroupedKeys(rows, platform);
    VersionGroupsKeys(rows, Android, AndroidPrefix, AndroidKey);
    VersionGroupsKeys(rows, Ios, IosPrefix, IosKey);
    VersionGroupsMembers(rows, Android, AndroidPrefix, AndroidKey);
    VersionGroupsMembers(rows, Ios, IosPrefix, IosKey);
    BothOrder(AndroidGroups(rows).value, IosGroups(rows).value, OsGroupedOf(data, platform).value,
              FilterOs(rows, Android).value, FilterOs(rows, Ios).value);
  }

  /** No group of `groups` has a key starting with another letter than `c`, so no row is
      keyed by such a key. */
  lemma ForeignKey(kept: seq<Row>, key: Row -> string, groups: seq<Group<Row>>, c: char, v: string)
    requires KeyIndex(groups, v).Some? <==> WithKey(kept, key, v) != []
    requires forall j :: 0 <= j < |groups| ==> groups[j].key != [] && groups[j].key[0] == c
    requires v != [] && v[0] != c
    ensures WithKey(kept, key, v) == []
  {
  }

  /** Each record of the merged groups totals the users of the rows of either platform
      keyed by its version. */
  lemma BothTotals(android: seq<Row>, ios: seq<Row>, a: seq<Group<Row>>, b: seq<Group<Row>>, records: seq<GroupRecord>)
    requires forall k :: KeyIndex(a, k).Some? <==> WithKey(android, AndroidKey, k) != []
    requires forall k :: KeyIndex(b, k).Some? <==> WithKey(ios, IosKey, k) != []
    requires forall j :: 0 <= j < |a| ==> a[j].items == WithKey(android, AndroidKey, a[j].key) && VersionShaped(a[j].key, AndroidPrefix)
    requires forall j :: 0 <= j < |b| ==> b[j].items == WithKey(ios, IosKey, b[j].key) && VersionShaped(b[j].key, IosPrefix)
    requires |records| == |a + b|
    requires forall i :: 0 <= i < |a + b| ==>
               records[i].version == (a + b)[i].key && records[i].total == SumOf((a + b)[i].items, Users)
    ensures forall i :: 0 <= i < |records| ==>
              records[i].total == SumOf(WithKey(android, AndroidKey, records[i].version), Users)
                                  + SumOf(WithKey(ios, IosKey, records[i].version), Users)
  {
    forall j | 0 <= j < |a| ensures a[j].key != [] && a[j].key[0] == 'A' {
      AndroidFirst(a[j].key);
    }
    forall j | 0 <= j < |b| ensures b[j].key != [] && b[j].key[0] == 'i' {
      IosFirst(b[j].key);
    }
    forall i | 0 <= i < |records|
      ensures records[i].total == SumOf(WithKey(android, AndroidKey, records[i].version), Users)
                                  + SumOf(WithKey(ios, IosKey, records[i].version), Users)
    {
      if i < |a| {
        assert (a + b)[i] == a[i];
        ForeignKey(ios, IosKey, b, 'i', a[i].key);
      } else {
        assert (a + b)[i] == b[i - |a|];
        ForeignKey(android, AndroidKey, a, 'A', b[i - |a|].key);
      }
    }
  }

  lemma AndroidFirst(v: string)
    requires VersionShaped(v, AndroidPrefix)
    ensures v != [] && v[0] == 'A'
  {
    assert v[0] == v[..|AndroidPrefix|][0];
  }

  lemma IosFirst(v: string)
    requires VersionShaped(v, IosPrefix)
    ensures v != [] && v[0] == 'i'
  {
    assert v[0] == v[..|IosPrefix|][0];
  }

  /** Every row of either platform has its key named by a record of the merged groups. */
  lemma BothNamed(android: seq<Row>, ios: seq<Row>, a: seq<Group<Row>>, b: seq<Group<Row>>, records: seq<GroupRecord>)
    requires forall r :: 0 <= r < |android| ==> KeyIndex(a, AndroidKey(android[r])).Some?
    requires forall r :: 0 <= r < |ios| ==> KeyIndex(b, IosKey(ios[r])).Some?
    requires |records| == |a + b|
    requires forall i :: 0 <= i < |a + b| ==> records[i].version == (a + b)[i].key
    ensures forall r :: 0 <= r < |android| ==> Listed(records, AndroidKey(android[r]))
    ensures forall r :: 0 <= r < |ios| ==> Listed(records, IosKey(ios[r]))
  {
    forall r | 0 <= r < |android| ensures Listed(records, AndroidKey(android[r])) {
      var i := KeyIndex(a, AndroidKey(android[r])).value;
      assert (a + b)[i] == a[i];
      assert records[i].version == AndroidKey(android[r]);
    }
    forall r | 0 <= r < |ios| ensures Listed(records, IosKey(ios[r])) {
      var i := KeyIndex(b, IosKey(ios[r])).value;
      assert (a + b)[|a| + i] == b[i];
      assert records[|a| + i].version == IosKey(ios[r]);
    }
  }

  /** The records of the merged groups keep the Android versions ahead of the iOS ones,
      each platform in its own order of first occurrence. */
  lemma BothOrder(a: seq<Group<Row>>, b: seq<Group<Row>>, records: seq<GroupRecord>, android: seq<Row>, ios: seq<Row>)
    requires forall j :: 0 <= j < |a| ==> VersionShaped(a[j].key, AndroidPrefix)
    requires forall j :: 0 <= j < |b| ==> VersionShaped(b[j].key, IosPrefix)
    requires FirstSeenOrder(a, android, AndroidKey) && FirstSeenOrder(b, ios, IosKey)
    requires |records| == |a + b| && forall i :: 0 <= i < |a + b| ==> records[i].version == (a + b)[i].key
    ensures forall i, j :: 0 <= i < j < |records| && VersionShaped(records[j].version, AndroidPrefix) ==>
              VersionShaped(records[i].version, AndroidPrefix) &&
              FirstIndex(android, AndroidKey, records[i].version) < FirstIndex(android, AndroidKey, records[j].version)
    ensures forall i, j :: 0 <= i < j < |records| && VersionShaped(records[i].version, IosPrefix) ==>
              VersionShaped(records[j].version, IosPrefix) &&
              FirstIndex(ios, IosKey, records[i].version) < FirstIndex(ios, IosKey, records[j].version)
  {
    forall i | 0 <= i < |records|
      ensures i < |a| ==> records[i].version == a[i].key && !VersionShaped(records[i].version, IosPrefix)
      ensures i >= |a| ==> records[i].version == b[i - |a|].key && !VersionShaped(records[i].version, AndroidPrefix)
    {
      if i < |a| {
        assert (a + b)[i] == a[i];
        assert a[i].key[0] == 'A';
      } else {
        assert (a + b)[i] == b[i - |a|];
        assert b[i - |a|].key[0] == 'i';
      }
    }
  }

  /** Some row of `kept` has a label the version pattern does not match. */
  predicate Unmatched(kept: seq<Row>, prefix: string) {
    exists i :: 0 <= i < |kept| && VersionKey(Label(kept[i]), prefix).None?
  }

  /** The grouping of one platform fails on an unlabelled row, or on a label the version
      pattern does not match, and then names that label. */
  lemma VersionGroupsFailure(rows: seq<Row>, platform: Platform, prefix: string, key: Row -> string)
    ensures var r := VersionGroups(rows, platform, prefix, key);
            (r.Err? && r.error.NoVersion?) <==>
              FilterOs(rows, platform).Ok? && Unmatched(FilterOs(rows, platform).value, prefix)
    ensures var r := VersionGroups(rows, platform, prefix, key);
            r.Err? && r.error.NoVersion? ==>
              exists i :: 0 <= i < |FilterOs(rows, platform).value| &&
                Label(FilterOs(rows, platform).value[i]) == r.error.name && VersionKey(r.error.name, prefix).None?
  {
  }

  /** `os_grouped` stops on a missing version exactly when the section is there, every row
      is labelled, and some row the grouping walks has a label without a version; the
      error names one such label. */
  lemma GroupedFailure(data: map<Section, Table>, platform: Platform)
    ensures var r := OsGroupedOf(data, platform);
            (r.Err? && r.error.NoVersion?) <==>
              OsVersion in data && AllHave(data[OsVersion].rows, OsColumn) &&
              ((platform != Android && Unmatched(Select(data[OsVersion].rows, IsIosOs), IosPrefix)) ||
               (platform != Ios && Unmatched(Select(data[OsVersion].rows, IsAndroidOs), AndroidPrefix)))
    ensures var r := OsGroupedOf(data, platform);
            r.Err? && r.error.NoVersion? ==>
              (exists i :: 0 <= i < |Select(data[OsVersion].rows, IsIosOs)| &&
                 Label(Select(data[OsVersion].rows, IsIosOs)[i]) == r.error.name && VersionKey(r.error.name, IosPrefix).None?) ||
              (exists i :: 0 <= i < |Select(data[OsVersion].rows, IsAndroidOs)| &&
                 Label(Select(data[OsVersion].rows, IsAndroidOs)[i]) == r.error.name && VersionKey(r.error.name, AndroidPrefix).None?)
  {
    if OsVersion in data {
      var rows := data[OsVersion].rows;
      VersionGroupsFailure(rows, Ios, IosPrefix, IosKey);
      VersionGroupsFailure(rows, Android, AndroidPrefix, AndroidKey);
      var groups := OsGroups(rows, platform);
      if groups.Ok? {
        ListingFault(groups.value, OsTotalOf(data, platform));
        assert OsTotalOf(data, platform).Ok?;
      }
    }
  }

  /** The loop of `os_grouped` fails only on a zero total. */
  lemma ListingFault(groups: seq<Group<Row>>, total: Result<int, Fault>)
    requires total.Ok?
    ensures GroupListing(groups, total).Err? ==> GroupListing(groups, total).error == ZeroTotal
  {
  }

  /** The analytics of the OS section fail for want of it exactly when the reader never
      stored it. */
  lemma MissingOsSection(data: map<Section, Table>, platform: Platform)
    ensures OsVersionOf(data, platform) == Err(NoSection) <==> OsVersion !in data
    ensures OsTotalOf(data, platform) == Err(NoSection) <==> OsVersion !in data
    ensures OsGroupedOf(data, platform) == Err(NoSection) <==> OsVersion !in data
  {
    if OsVersion in data {
      var rows := data[OsVersion].rows;
      assert OsRows(data, platform) == FilterOs(rows, platform);
      assert OsGroupedOf(data, platform) != Err(NoSection) by {
        assert VersionGroups(rows, Ios, IosPrefix, IosKey) != Err(NoSection);
        assert VersionGroups(rows, Android, AndroidPrefix, AndroidKey) != Err(NoSection);
        if OsGroups(rows, platform).Ok? {
          ListingFault(OsGroups(rows, platform).value, OsTotalOf(data, platform));
        }
      }
    }
  }

  /** The device, gender and age listings fail for want of their section exactly when the
      reader never stored it. */
  lemma MissingSection(data: map<Section, Table>, platform: Platform, friendly: bool, limit: Option<int>,
                       lookup: Option<string> -> Option<string>)
    ensures DevicesOf(data, platform, friendly, limit, lookup) == Err(NoSection) <==> Devices !in data
    ensures GenderOf(data) == Err(NoSection) <==> Section.Gender !in data
    ensures GenderAgeOf(data) == Err(NoSection) <==> GenderAge !in data
  {
  }


  /** The groups hold the users of the rows `os_total` adds up. */
  lemma GroupsTotal(rows: seq<Row>, platform: Platform)
    requires OsGroups(rows, platform).Ok?
    requires platform == Ios || platform == Android || OnePlatformEach(rows)
    ensures FilterOs(rows, platform).Ok?
    ensures Total(OsGroups(rows, platform).value, Users) == SumOf(FilterOs(rows, platform).value, Users)
  {
    if platform == Ios {
      GroupByTotal(FilterOs(rows, Ios).value, IosKey, Users);
    } else if platform == Android {
      GroupByTotal(FilterOs(rows, Android).value, AndroidKey, Users);
    } else {
      GroupedKeys(rows, platform);
      MergedTotal(rows);
    }
  }

  lemma MergedTotal(rows: seq<Row>)
    requires AndroidGroups(rows).Ok? && IosGroups(rows).Ok?
    requires OnePlatformEach(rows)
    ensures Total(AndroidGroups(rows).value + IosGroups(rows).value, Users) == SumOf(rows, Users)
  {
    GroupByTotal(FilterOs(rows, Android).value, AndroidKey, Users);
    GroupByTotal(FilterOs(rows, Ios).value, IosKey, Users);
    SumOfSelect(rows, IsIosOs, IsAndroidOs, Users);
    TotalAppend(AndroidGroups(rows).value, IosGroups(rows).value, Users);
  }

  lemma {:induction false} TotalAppend(a: seq<Group<Row>>, b: seq<Group<Row>>, w: Row -> int)
    ensures Total(a + b, w) == Total(a, w) + Total(b, w)
    decreases |b|
  {
    if b == [] {
      assert a + b == a;
    } else {
      var b' := b[..|b| - 1];
      assert (a + b)[..|a + b| - 1] == a + b';
      assert (a + b)[|a + b| - 1] == b[|b| - 1];
      TotalAppend(a, b', w);
    }
  }

  /** `devices` keeps the first `limit` (by default 10) rows of the platform, in order,
      each with its model and users; a friendly name is present exactly when asked for on a
      platform that can hold Android devices, and it is the model's name as looked up, or
      the model itself when the lookup finds none; an iOS listing holds only iOS devices
      and an Android listing none. A negative limit fails. */
  lemma DevicesListing(data: map<Section, Table>, platform: Platform, friendly: bool, limit: Option<int>,
                       lookup: Option<string> -> Option<string>)
    requires Devices in data && FilterDevice(data[Devices].rows, platform).Ok?
    ensures var kept := FilterDevice(data[Devices].rows, platform).value;
            var r := DevicesOf(data, platform, friendly, limit, lookup);
            (r.Err? <==> Limit(limit) < 0) &&
            (r.Err? ==> r.error == NegativeLimit(Limit(limit))) &&
            (r.Ok? ==> |r.value| == (if Limit(limit) < |kept| then Limit(limit) else |kept|)) &&
            (r.Ok? ==> forall i :: 0 <= i < |r.value| ==>
               r.value[i].model == Field(kept[i], ModelColumn) && r.value[i].count == Users(kept[i]) &&
               (r.value[i].friendly.Some? <==> friendly && (platform == All || platform == Android)) &&
               (r.value[i].friendly.Some? ==>
                  r.value[i].friendly.value == if lookup(r.value[i].model).Some? then lookup(r.value[i].model) else r.value[i].model) &&
               (platform == Ios ==> r.value[i].model.Some? && IsIosDevice(r.value[i].model.value)) &&
               (platform == Android ==> r.value[i].model.Some? && !IsIosDevice(r.value[i].model.value)))
  {
    var kept := FilterDevice(data[Devices].rows, platform).value;
    var r := DevicesOf(data, platform, friendly, limit, lookup);
    if r.Ok? {
      forall i | 0 <= i < |r.value|
        ensures platform == Ios ==> r.value[i].model.Some? && IsIosDevice(r.value[i].model.value)
        ensures platform == Android ==> r.value[i].model.Some? && !IsIosDevice(r.value[i].model.value)
      {
        assert r.value[i] == DeviceRecordOf(kept[i], friendly && (platform == All || platform == Android), lookup);
        if platform == Ios {
          assert IsIosRow(kept[i]);
        } else if platform == Android {
          assert IsOtherRow(kept[i]);
        }
      }
    }
  }

  /** `gender` lists every row of the section with its two cells as read. */
  lemma GenderCells(data: map<Section, Table>)
    ensures GenderOf(data).Ok? <==> Section.Gender in data
    ensures GenderOf(data).Ok? ==> |GenderOf(data).value| == |data[Section.Gender].rows|
    ensures GenderOf(data).Ok? ==> forall i :: 0 <= i < |GenderOf(data).value| ==>
              GenderOf(data).value[i].gender == Field(data[Section.Gender].rows[i], GenderColumn) &&
              GenderOf(data).value[i].count == Field(data[Section.Gender].rows[i], UsersColumn)
  {
  }

  /** `p` is the fraction `f` as a percentage, to within half a unit of the second place,
      and a whole number of hundredths. */
  predicate ShareOf(p: real, f: real) {
    -0.005 <= p - f * 100.0 <= 0.005 && (p * 100.0).Floor as real == p * 100.0
  }

  /** `(f * 100).round(2)` is the percentage of `f` to two places. */
  lemma PercentBound(f: real)
    ensures ShareOf(Round(f * 100.0, 100.0), f)
  {
    RoundError(f * 100.0, 100.0);
  }

  /** A `gender_age` entry is labelled with the row's category and holds both shares. */
  lemma AgeRecordShares(row: Row)
    ensures AgeRecordOf(row).age == Field(row, CategoryColumn)
    ensures ShareOf(AgeRecordOf(row).male, ToF(Field(row, MaleColumn).GetOr("")))
    ensures ShareOf(AgeRecordOf(row).female, ToF(Field(row, FemaleColumn).GetOr("")))
  {
    var m := ToF(Field(row, MaleColumn).GetOr(""));
    var f := ToF(Field(row, FemaleColumn).GetOr(""));
    PercentBound(m);
    PercentBound(f);
    assert AgeRecordOf(row).male == Round(m * 100.0, 100.0);
    assert AgeRecordOf(row).female == Round(f * 100.0, 100.0);
  }

  /** `gender_age` lists every row of the section, in order, each with its category and
      its two shares. */
  lemma AgeShares(data: map<Section, Table>)
    requires GenderAgeOf(data).Ok?
    ensures |GenderAgeOf(data).value| == |data[GenderAge].rows|
    ensures forall i :: 0 <= i < |GenderAgeOf(data).value| ==>
              GenderAgeOf(data).value[i].age == Field(data[GenderAge].rows[i], CategoryColumn) &&
              ShareOf(GenderAgeOf(data).value[i].male, ToF(Field(data[GenderAge].rows[i], MaleColumn).GetOr(""))) &&
              ShareOf(GenderAgeOf(data).value[i].female, ToF(Field(data[GenderAge].rows[i], FemaleColumn).GetOr("")))
  {
    var rows := data[GenderAge].rows;
    var recs := GenderAgeOf(data).value;
    forall i | 0 <= i < |recs|
      ensures recs[i].age == Field(rows[i], CategoryColumn)
      ensures ShareOf(recs[i].male, ToF(Field(rows[i], MaleColumn).GetOr("")))
      ensures ShareOf(recs[i].female, ToF(Field(rows[i], FemaleColumn).GetOr("")))
    {
      assert recs[i] == AgeRecordOf(rows[i]);
      AgeRecordShares(rows[i]);
    }
  }

  // ---------------------------------------------------------------------------------------
  // The wrapper

  /** `FirebaseStats::Wrapper`: the analytics over the sections of one reader, for one
      platform. */
  class Wrapper {
    const stats: Reader
    const platform: Platform

    constructor(stats: Reader, platform: Platform)
      ensures this.stats == stats && this.platform == platform
    {
      this.stats := stats;
      this.platform := platform;
    }

    /** `os_total`. */
    method OsTotal() returns (r: Result<int, Fault>)
      ensures r == OsTotalOf(stats.data, platform)
    {
      var filtered := OsRows(stats.data, platform);
      if filtered.Err? {
        return Err(filtered.error);
      }
      var rows := filtered.value;
      var total := 0;
      var i := 0;
      while i < |rows|
        invariant i <= |rows|
        invariant total == SumOf(rows[..i], Users)
      {
        assert rows[..i + 1][..i] == rows[..i];
        total := total + Users(rows[i]);
        i := i + 1;
      }
      assert rows[..i] == rows;
      return Ok(total);
    }

    /** `os_version`. */
    method OsVersion() returns (r: Result<seq<VersionRecord>, Fault>)
      ensures r == OsVersionOf(stats.data, platform)
    {
      var filtered := OsRows(stats.data, platform);
      if filtered.Err? {
        return Err(filtered.error);
      }
      r := VersionEntries(filtered.value);
    }

    /** The loop of `os_version`: a record per row, `os_total` taken again for each. */
    method VersionEntries(rows: seq<Row>) returns (r: Result<seq<VersionRecord>, Fault>)
      ensures r == VersionListing(rows, OsTotalOf(stats.data, platform))
    {
      ghost var t := OsTotalOf(stats.data, platform);
      var cleaned: seq<VersionRecord> := [];
      var i := 0;
      while i < |rows|
        invariant i <= |rows| && |cleaned| == i
        invariant i > 0 ==> t.Ok? && t.value != 0
        invariant forall j :: 0 <= j < i ==> cleaned[j] == VersionRecordOf(rows[j], t.value)
      {
        var total := OsTotal();
        assert total == t;
        if total.Err? {
          return Err(total.error);
        }
        if total.value == 0 {
          return Err(ZeroTotal);
        }
        cleaned := cleaned + [VersionRecordOf(rows[i], total.value)];
        i := i + 1;
      }
      if rows != [] {
        assert cleaned == VersionRecords(rows, t.value);
      }
      return Ok(cleaned);
    }

    /** `os_grouped`. */
    method OsGrouped() returns (r: Result<seq<GroupRecord>, Fault>)
      ensures r == OsGroupedOf(stats.data, platform)
    {
      var raw := SectionRows(stats.data, Section.OsVersion);
      if raw.Err? {
        return Err(raw.error);
      }
      var grouped := OsGroups(raw.value, platform);
      if grouped.Err? {
        return Err(grouped.error);
      }
      r := GroupEntries(grouped.value);
    }

    /** The loop of `os_grouped`: a record per group, `os_total` taken again for each. */
    method GroupEntries(groups: seq<Group<Row>>) returns (r: Result<seq<GroupRecord>, Fault>)
      ensures r == GroupListing(groups, OsTotalOf(stats.data, platform))
    {
      ghost var t := OsTotalOf(stats.data, platform);
      var computed: seq<GroupRecord> := [];
      var i := 0;
      while i < |groups|
        invariant i <= |groups| && |computed| == i
        invariant i > 0 ==> t.Ok? && t.value != 0
        invariant forall j :: 0 <= j < i ==> computed[j] == GroupRecordOf(groups[j], t.value)
      {
        var osTotal := OsTotal();
        assert osTotal == t;
        if osTotal.Err? {
          return Err(osTotal.error);
        }
        if osTotal.value == 0 {
          return Err(ZeroTotal);
        }
        computed := computed + [GroupRecordOf(groups[i], osTotal.value)];
        i := i + 1;
      }
      if groups != [] {
        assert computed == GroupRecords(groups, t.value);
      }
      return Ok(computed);
    }

    /** `devices(friendly:, limit:)`; the catalogue of Android device names is the
        `lookup` parameter. */
    method Devices(friendly: bool, limit: Option<int>, lookup: Option<string> -> Option<string>)
      returns (r: Result<seq<DeviceRecord>, Fault>)
      ensures r == DevicesOf(stats.data, platform, friendly, limit, lookup)
    {
      var raw := SectionRows(stats.data, Section.Devices);
      if raw.Err? {
        return Err(raw.error);
      }
      var filtered := FilterDevice(raw.value, platform);
      if filtered.Err? {
        return Err(filtered.error);
      }
      var n := Limit(limit);
      if n < 0 {
        return Err(NegativeLimit(n));
      }
      var taken := if n < |filtered.value| then filtered.value[..n] else filtered.value;
      var cleaned := DeviceEntries(taken, friendly && (platform == All || platform == Android), lookup);
      return Ok(cleaned);
    }

    /** The loop of `devices`: the model of each row, its friendly name when `named`, and
        its users. */
    method DeviceEntries(rows: seq<Row>, named: bool, lookup: Option<string> -> Option<string>)
      returns (cleaned: seq<DeviceRecord>)
      ensures cleaned == DeviceRecords(rows, named, lookup)
    {
      cleaned := [];
      var i := 0;
      while i < |rows|
        invariant i <= |rows| && |cleaned| == i
        invariant forall j :: 0 <= j < i ==> cleaned[j] == DeviceRecordOf(rows[j], named, lookup)
      {
        var row := rows[i];
        var model := Field(row, ModelColumn);
        var friendlyName: Option<Option<string>> := None;
        if named {
          var mapped := lookup(model);
          friendlyName := Some(if mapped.None? then model else mapped);
        }
        var device := DeviceRecord(model, friendlyName, Users(row));
        assert device == DeviceRecordOf(row, named, lookup);
        assert forall j :: 0 <= j < i ==> (cleaned + [device])[j] == cleaned[j];
        cleaned := cleaned + [device];
        i := i + 1;
      }
    }

    /** `gender`. */
    method Gender() returns (r: Result<seq<GenderRecord>, Fault>)
      ensures r == GenderOf(stats.data)
    {
      var raw := SectionRows(stats.data, Section.Gender);
      if raw.Err? {
        return Err(raw.error);
      }
      var rows := raw.value;
      var data: seq<GenderRecord> := [];
      var i := 0;
      while i < |rows|
        invariant i <= |rows| && |data| == i
        invariant forall j :: 0 <= j < i ==> data[j] == GenderRecord(Field(rows[j], GenderColumn), Field(rows[j], UsersColumn))
      {
        data := data + [GenderRecord(Field(rows[i], GenderColumn), Field(rows[i], UsersColumn))];
        i := i + 1;
      }
      assert data == GenderOf(stats.data).value;
      return Ok(data);
    }

    /** `gender_age`. */
    method GenderAge() returns (r: Result<seq<AgeRecord>, Fault>)
      ensures r == GenderAgeOf(stats.data)
    {
      var raw := SectionRows(stats.data, Section.GenderAge);
      if raw.Err? {
        return Err(raw.error);
      }
      var rows := raw.value;
      var data: seq<AgeRecord> := [];
      var i := 0;
      while i < |rows|
        invariant i <= |rows| && |data| == i
        invariant forall j :: 0 <= j < i ==>
                    data[j] == AgeRecordOf(rows[j])
      {
        data := data + [AgeRecordOf(rows[i])];
        i := i + 1;
      }
      assert data == GenderAgeOf(stats.data).value;
      return Ok(data);
    }
  }
}
