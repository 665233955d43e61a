/** The platform filter of lib/device_utils.rb: an iOS device is recognised by its model
    name, and a device table is narrowed to the iOS rows, to the other rows, or kept whole. */
module DeviceUtils {
  import opened Common
  import opened Text
  import opened Csv

  /** The platform symbol a wrapper is built with: `:all`, `:ios`, `:android`, or any other
      symbol, which every `case` treats like `:all`. */
  datatype Platform = All | Ios | Android | Other

  /** The column that names a device. */
  const ModelColumn: string := "Device model"

  /** `ios_device?`: the lower-cased name mentions an iPhone, an iPad or an iPod. */
  predicate IsIosDevice(name: string) {
    Contains(Lower(name), "iphone") || Contains(Lower(name), "ipad") || Contains(Lower(name), "ipod")
  }

  /** The test reads the name case-insensitively: lower-casing it first changes nothing. */
  lemma IosDeviceIgnoresCase(name: string)
    ensures IsIosDevice(Lower(name)) == IsIosDevice(name)
  {
    LowerIdempotent(name);
  }

  /** Apple's model names are recognised whatever their case. */
  lemma IosDeviceExamples()
    ensures IsIosDevice("iPad") && IsIosDevice("IPOD")
  {
    assert Lower("iPad") == "ipad";
    assert Lower("IPOD") == "ipod";
  }

  /** A text without the letter "i" contains no text that starts with it. */
  lemma NoOccurrenceWithoutFirst(s: string, t: string)
    requires t != [] && forall k :: 0 <= k < |s| ==> s[k] != t[0]
    ensures !Contains(s, t)
  {
    ContainsIff(s, t);
    forall i | 0 <= i <= |s|
      ensures !StartsWith(s[i..], t)
    {
      if i < |s| {
        assert s[i..][0] == s[i];
      }
    }
  }

  /** All three markers start with an "i", so a name without that letter, in either case,
      is never taken for an iOS device (Android models such as "SM-G991B"). */
  lemma NotIosWithoutI(name: string)
    requires forall k :: 0 <= k < |name| ==> LowerChar(name[k]) != 'i'
    ensures !IsIosDevice(name)
  {
    var l := Lower(name);
    NoOccurrenceWithoutFirst(l, "iphone");
    NoOccurrenceWithoutFirst(l, "ipad");
    NoOccurrenceWithoutFirst(l, "ipod");
  }

  /** The block of `select` for `:ios`. */
  predicate IsIosRow(row: Row) {
    ModelColumn in row && IsIosDevice(row[ModelColumn])
  }

  /** The rows `reject` keeps for `:android`. */
  predicate IsOtherRow(row: Row) {
    ModelColumn in row && !IsIosDevice(row[ModelColumn])
  }

  /** `filter_device`: `:ios` keeps the iOS rows, `:android` drops them, and any other
      platform returns the table as it is; a row without a model makes both filters fail. */
  function FilterDevice(rows: seq<Row>, platform: Platform): (r: Result<seq<Row>, Fault>)
    ensures r.Err? <==> (platform == Ios || platform == Android) && !AllHave(rows, ModelColumn)
    ensures r.Err? ==> r.error == NilCell(ModelColumn)
    ensures r.Ok? ==> |r.value| <= |rows|
    ensures r.Ok? && platform == Ios ==> forall i :: 0 <= i < |r.value| ==> IsIosRow(r.value[i])
    ensures r.Ok? && platform == Android ==> forall i :: 0 <= i < |r.value| ==> IsOtherRow(r.value[i])
    ensures platform == All || platform == Other ==> r == Ok(rows)
  {
    match platform
    case Ios => if AllHave(rows, ModelColumn) then Ok(Select(rows, IsIosRow)) else Err(NilCell(ModelColumn))
    case Android => if AllHave(rows, ModelColumn) then Ok(Select(rows, IsOtherRow)) else Err(NilCell(ModelColumn))
    case _ => Ok(rows)
  }

  /** A row survives the `:ios` filter exactly when it is in the table and names an iOS
      device, and the `:android` filter exactly when it is in the table and does not. */
  lemma FilterDeviceMember(rows: seq<Row>, row: Row)
    requires AllHave(rows, ModelColumn)
    ensures row in FilterDevice(rows, Ios).value <==> row in rows && IsIosDevice(row[ModelColumn])
    ensures row in FilterDevice(rows, Android).value <==> row in rows && !IsIosDevice(row[ModelColumn])
  {
    SelectMember(rows, IsIosRow, row);
    SelectMember(rows, IsOtherRow, row);
    if row in rows {
      var i :| 0 <= i < |rows| && rows[i] == row;
      assert ModelColumn in rows[i];
    }
  }

  /** The `:ios` and `:android` results split the table: every row lands in exactly one of
      them, and their lengths add up to the table's. */
  lemma FilterDeviceComplement(rows: seq<Row>)
    requires AllHave(rows, ModelColumn)
    ensures multiset(FilterDevice(rows, Ios).value) + multiset(FilterDevice(rows, Android).value) == multiset(rows)
    ensures |FilterDevice(rows, Ios).value| + |FilterDevice(rows, Android).value| == |rows|
  {
    SelectComplement(rows, IsIosRow, IsOtherRow);
  }

  /** Filtering keeps the order of the table: filtering two tables laid end to end is
      filtering each of them. */
  lemma FilterDeviceAppend(a: seq<Row>, b: seq<Row>, platform: Platform)
    requires AllHave(a, ModelColumn) && AllHave(b, ModelColumn)
    ensures AllHave(a + b, ModelColumn)
    ensures FilterDevice(a + b, platform).value == FilterDevice(a, platform).value + FilterDevice(b, platform).value
  {
    assert forall i :: 0 <= i < |a + b| ==> (a + b)[i] == if i < |a| then a[i] else b[i - |a|];
    SelectAppend(a, b, IsIosRow);
    SelectAppend(a, b, IsOtherRow);
  }

  /** Filtering a filtered table again changes nothing. */
  lemma FilterDeviceIdempotent(rows: seq<Row>, platform: Platform)
    requires FilterDevice(rows, platform).Ok?
    ensures FilterDevice(FilterDevice(rows, platform).value, platform) == FilterDevice(rows, platform)
  {
    match platform
    case Ios =>
      SelectIdempotent(rows, IsIosRow);
    case Android =>
      SelectIdempotent(rows, IsOtherRow);
    case _ =>
  }
}
