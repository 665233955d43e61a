/** The section-splitting parser of lib/reader.rb. An export is a run of lines; blank
    lines separate blocks, lines holding '#' are dropped, and a block whose stripped first
    line is one of fifteen known headers is parsed as a table and stored under its
    section, unless that section is already stored. */
module StatsReader {
  import opened Common
  import opened Text
  import opened Csv

  /** The section symbols of `match_header`. */
  datatype Section =
    | ActiveUsers | DailyEngagement | Screens | Revenue | CrashFreeUsers
    | VersionAdoption | Acquisition | RetentionCohorts | AudienceCountry | Devices
    | OsVersion | Gender | GenderAge | Platform | PlatformEngagement

  /** The header line that identifies each section. */
  function Signature(s: Section): string {
    match s
    case ActiveUsers => "Day,28-Day,7-Day,1-Day"
    case DailyEngagement => "Day,Average engagement time"
    case Screens => "Page path and screen class,User engagement,Screen views"
    case Revenue => "Day,Total revenue"
    case CrashFreeUsers => "App,Crash-free users"
    case VersionAdoption => "App,Version,Status"
    case Acquisition => "Source,first_open conversions,LTV"
    case RetentionCohorts => "Date,Week 0,Week 1,Week 2,Week 3,Week 4,Week 5"
    case AudienceCountry => "Country ID,Sessions,% Total"
    case Devices => "Device model,Users"
    case OsVersion => "OS with version,Users"
    case Gender => "Gender,Users"
    case GenderAge => "Category,Female,Male"
    case Platform => "Platform,Users"
    case PlatformEngagement => "Platform,Users,% Total,User engagement,Total revenue"
  }

  /** The sections in the order of the signature table. */
  const AllSections: seq<Section> := [
    ActiveUsers, DailyEngagement, Screens, Revenue, CrashFreeUsers,
    VersionAdoption, Acquisition, RetentionCohorts, AudienceCountry, Devices,
    OsVersion, Gender, GenderAge, Platform, PlatformEngagement
  ]

  lemma AllSectionsComplete(s: Section)
    ensures s in AllSections
  {
  }

  /** The section a signature's length and first character identify. */
  function SectionOfTag(n: nat, c: char): Option<Section> {
    if n == 22 then Some(ActiveUsers)
    else if n == 27 then (if c == 'D' then Some(DailyEngagement) else Some(AudienceCountry))
    else if n == 55 then Some(Screens)
    else if n == 17 then Some(Revenue)
    else if n == 20 then (if c == 'A' then Some(CrashFreeUsers) else Some(GenderAge))
    else if n == 18 then (if c == 'A' then Some(VersionAdoption) else Some(Devices))
    else if n == 33 then Some(Acquisition)
    else if n == 46 then Some(RetentionCohorts)
    else if n == 21 then Some(OsVersion)
    else if n == 12 then Some(Gender)
    else if n == 14 then Some(Platform)
    else if n == 52 then Some(PlatformEngagement)
    else None
  }

  lemma SectionOfSignature(s: Section)
    ensures |Signature(s)| > 0 && SectionOfTag(|Signature(s)|, Signature(s)[0]) == Some(s)
  {
    if s.ActiveUsers? || s.DailyEngagement? || s.Screens? || s.Revenue? || s.CrashFreeUsers?
       || s.VersionAdoption? || s.Acquisition? {
      EarlySectionTag(s);
    } else {
      LateSectionTag(s);
    }
  }

  lemma EarlySectionTag(s: Section)
    requires s.ActiveUsers? || s.DailyEngagement? || s.Screens? || s.Revenue? || s.CrashFreeUsers?
             || s.VersionAdoption? || s.Acquisition?
    ensures |Signature(s)| > 0 && SectionOfTag(|Signature(s)|, Signature(s)[0]) == Some(s)
  {
    match s
    case ActiveUsers =>
    case DailyEngagement =>
    case Screens =>
    case Revenue =>
    case CrashFreeUsers =>
    case VersionAdoption =>
    case Acquisition =>
  }

  lemma LateSectionTag(s: Section)
    requires !(s.ActiveUsers? || s.DailyEngagement? || s.Screens? || s.Revenue? || s.CrashFreeUsers?
               || s.VersionAdoption? || s.Acquisition?)
    ensures |Signature(s)| > 0 && SectionOfTag(|Signature(s)|, Signature(s)[0]) == Some(s)
  {
    match s
    case RetentionCohorts =>
    case AudienceCountry =>
    case Devices =>
    case OsVersion =>
    case Gender =>
    case GenderAge =>
    case Platform =>
    case PlatformEngagement =>
  }

  /** No two sections share a header, so the signature table is a function both ways. */
  lemma SignatureInjective(a: Section, b: Section)
    requires Signature(a) == Signature(b)
    ensures a == b
  {
    SectionOfSignature(a);
    SectionOfSignature(b);
  }

  /** The first candidate whose signature is `key`. */
  function Find(key: string, candidates: seq<Section>): (r: Option<Section>)
    ensures r.Some? ==> r.value in candidates && Signature(r.value) == key
    ensures r.None? ==> forall s :: s in candidates ==> Signature(s) != key
  {
    if candidates == [] then None
    else if Signature(candidates[0]) == key then Some(candidates[0])
    else Find(key, candidates[1..])
  }

  /** `match_header`: the first section, in table order, whose signature is exactly the
      stripped header. */
  function MatchHeader(header: string): (r: Option<Section>)
    ensures r.Some? ==> Signature(r.value) == Strip(header)
  {
    Find(Strip(header), AllSections)
  }

  /** A header names a section exactly when it is that section's signature up to
      surrounding whitespace. */
  lemma MatchHeaderIff(header: string, s: Section)
    ensures MatchHeader(header) == Some(s) <==> Signature(s) == Strip(header)
  {
    if Signature(s) == Strip(header) {
      AllSectionsComplete(s);
      SignatureInjective(s, MatchHeader(header).value);
    }
  }

  /** `comment?`: a line holding '#' anywhere. */
  predicate IsComment(line: string) {
    '#' in line
  }

  /** A line made only of whitespace. */
  predicate IsBlank(line: string) {
    AllSpace(line)
  }

  /** `line.strip.empty?` holds exactly for the blank lines. */
  lemma StripEmptyIffBlank(line: string)
    ensures Strip(line) == [] <==> IsBlank(line)
  {
  }

  /** A line that `parse` pushes onto the current block. */
  predicate KeepLine(line: string) {
    !(IsComment(line) || IsBlank(line))
  }

  /** The lines that `parse` keeps, in order. */
  function KeptLines(lines: seq<string>): seq<string> {
    Select(lines, KeepLine)
  }

  /** The index of the first separator, or `|s|` when there is none. */
  function BreakAt<T>(s: seq<T>, sep: T -> bool): (n: nat)
    ensures n <= |s|
    ensures n < |s| ==> sep(s[n])
    decreases |s|
  {
    if s == [] || sep(s[0]) then 0 else 1 + BreakAt(s[1..], sep)
  }

  /** No separator comes before the first one. */
  lemma {:induction false} BreakAtBefore<T>(s: seq<T>, sep: T -> bool)
    ensures forall k :: 0 <= k < BreakAt(s, sep) ==> !sep(s[k])
    decreases |s|
  {
    if s != [] && !sep(s[0]) {
      BreakAtBefore(s[1..], sep);
      forall k | 1 <= k < BreakAt(s, sep) ensures !sep(s[k]) {
        assert s[k] == s[1..][k - 1];
      }
    }
  }

  /** The first separator is the one with none before it. */
  lemma {:induction false} BreakAtIs<T>(s: seq<T>, sep: T -> bool, n: nat)
    requires n <= |s|
    requires forall k :: 0 <= k < n ==> !sep(s[k])
    requires n < |s| ==> sep(s[n])
    ensures BreakAt(s, sep) == n
    decreases |s|
  {
    if n > 0 {
      assert !sep(s[0]);
      forall k | 0 <= k < n - 1 ensures !sep(s[1..][k]) {
        assert s[1..][k] == s[k + 1];
      }
      BreakAtIs(s[1..], sep, n - 1);
    }
  }

  /** A piece, unless it is empty. */
  function Single<T>(piece: seq<T>): seq<seq<T>> {
    if piece == [] then [] else [piece]
  }

  /** The pieces of `s` between separators, each reduced to its kept elements; a piece
      left empty gives nothing. */
  function Segments<T>(s: seq<T>, sep: T -> bool, keep: T -> bool): seq<seq<T>>
    decreases |s|
  {
    var n := BreakAt(s, sep);
    Single(Select(s[..n], keep)) + (if n < |s| then Segments(s[n + 1..], sep, keep) else [])
  }

  /** Without a separator the whole sequence is one piece, and its last element belongs to it. */
  lemma SegmentsNoBreak<T>(s: seq<T>, sep: T -> bool, keep: T -> bool)
    requires forall k :: 0 <= k < |s| ==> !sep(s[k])
    ensures Segments(s, sep, keep) == Single(Select(s, keep))
  {
    BreakAtIs(s, sep, |s|);
    assert s[..|s|] == s;
  }

  /** A separator splits the pieces before it from the pieces after it. */
  lemma {:induction false} SegmentsSplit<T>(a: seq<T>, x: T, b: seq<T>, sep: T -> bool, keep: T -> bool)
    requires sep(x)
    ensures Segments(a + [x] + b, sep, keep) == Segments(a, sep, keep) + Segments(b, sep, keep)
    decreases |a|
  {
    var n := BreakAt(a, sep);
    if n == |a| {
      SplitAtEnd(a, x, b, sep, keep);
    } else {
      SegmentsSplit(a[n + 1..], x, b, sep, keep);
      SplitAfter(a, x, b, sep, keep, n);
    }
  }

  /** The separator `x` is the first one of `a + [x] + b`. */
  lemma SplitAtEnd<T>(a: seq<T>, x: T, b: seq<T>, sep: T -> bool, keep: T -> bool)
    requires sep(x) && BreakAt(a, sep) == |a|
    ensures Segments(a + [x] + b, sep, keep) == Segments(a, sep, keep) + Segments(b, sep, keep)
  {
    JoinedBreak(a, x, b, sep);
    JoinedSlices(a, x, b, |a|);
    assert a[..|a|] == a;
  }

  /** The first separator lies inside `a`: the first piece is shared, and the rest splits
      as the remainder of `a` does. */
  lemma SplitAfter<T>(a: seq<T>, x: T, b: seq<T>, sep: T -> bool, keep: T -> bool, n: nat)
    requires sep(x) && n == BreakAt(a, sep) && n < |a|
    requires Segments(a[n + 1..] + [x] + b, sep, keep) ==
             Segments(a[n + 1..], sep, keep) + Segments(b, sep, keep)
    ensures Segments(a + [x] + b, sep, keep) == Segments(a, sep, keep) + Segments(b, sep, keep)
  {
    var s := a + [x] + b;
    JoinedBreak(a, x, b, sep);
    JoinedSlices(a, x, b, n);
    SegmentsAt(s, sep, keep, n);
    SegmentsAt(a, sep, keep, n);
    Regroup(Segments(s, sep, keep), Segments(a, sep, keep), Single(Select(a[..n], keep)),
            Segments(a[n + 1..], sep, keep), Segments(b, sep, keep));
  }

  /** A list that is `h` followed by `p + q` is `h + p` followed by `q`. */
  lemma Regroup<U>(whole: seq<U>, front: seq<U>, h: seq<U>, p: seq<U>, q: seq<U>)
    requires whole == h + (p + q) && front == h + p
    ensures whole == front + q
  {
  }

  /** `Segments` unfolded once at its first separator `n`. */
  lemma SegmentsAt<T>(s: seq<T>, sep: T -> bool, keep: T -> bool, n: nat)
    requires n == BreakAt(s, sep) && n < |s|
    ensures Segments(s, sep, keep) == Single(Select(s[..n], keep)) + Segments(s[n + 1..], sep, keep)
  {
  }

  /** The first separator of `a + [x] + b` is the first one of `a`, or `x` when `a` has
      none. */
  lemma JoinedBreak<T>(a: seq<T>, x: T, b: seq<T>, sep: T -> bool)
    requires sep(x)
    ensures BreakAt(a + [x] + b, sep) == BreakAt(a, sep)
  {
    var n := BreakAt(a, sep);
    var s := a + [x] + b;
    BreakAtBefore(a, sep);
    assert forall k :: 0 <= k < n ==> s[k] == a[k];
    assert n == |a| ==> s[n] == x;
    BreakAtIs(s, sep, n);
  }

  /** Slicing `a + [x] + b` at a position inside `a` or at `x`. */
  lemma JoinedSlices<T>(a: seq<T>, x: T, b: seq<T>, n: nat)
    requires n <= |a|
    ensures var s := a + [x] + b;
            s[..n] == a[..n] &&
            (n == |a| ==> s[n + 1..] == b) &&
            (n < |a| ==> s[n + 1..] == a[n + 1..] + [x] + b)
  {
    var s := a + [x] + b;
    if n < |a| {
      var t := a[n + 1..] + [x] + b;
      assert |s[n + 1..]| == |t|;
      forall k | 0 <= k < |t| ensures s[n + 1..][k] == t[k] {
        if k < |a| - n - 1 {
          assert t[k] == a[n + 1 + k];
        } else if k == |a| - n - 1 {
          assert t[k] == x;
        } else {
          assert t[k] == b[k - (|a| - n)];
        }
      }
    }
  }

  /** Every piece is non-empty and made only of kept elements. */
  lemma {:induction false} SegmentsWellFormed<T>(s: seq<T>, sep: T -> bool, keep: T -> bool)
    ensures forall i :: 0 <= i < |Segments(s, sep, keep)| ==>
              Segments(s, sep, keep)[i] != [] &&
              forall j :: 0 <= j < |Segments(s, sep, keep)[i]| ==> keep(Segments(s, sep, keep)[i][j])
    decreases |s|
  {
    var n := BreakAt(s, sep);
    if n < |s| {
      SegmentsWellFormed(s[n + 1..], sep, keep);
    }
  }

  /** When no separator is kept, the pieces laid end to end are the kept elements in order. */
  lemma {:induction false} SegmentsFlatten<T>(s: seq<T>, sep: T -> bool, keep: T -> bool)
    requires forall k :: 0 <= k < |s| && sep(s[k]) ==> !keep(s[k])
    ensures Concat(Segments(s, sep, keep)) == Select(s, keep)
    decreases |s|
  {
    var n := BreakAt(s, sep);
    var head := Single(Select(s[..n], keep));
    ConcatSingle(Select(s[..n], keep));
    if n < |s| {
      var rest := s[n + 1..];
      assert forall k :: 0 <= k < |rest| ==> rest[k] == s[n + 1 + k];
      SegmentsFlatten(rest, sep, keep);
      ConcatAppend(head, Segments(rest, sep, keep));
      SelectAround(s, n, keep);
    } else {
      assert s[..n] == s;
    }
  }

  /** Selecting around an element the test rejects: the selections on either side of it,
      laid end to end. */
  lemma SelectAround<T>(s: seq<T>, n: nat, keep: T -> bool)
    requires n < |s| && !keep(s[n])
    ensures Select(s, keep) == Select(s[..n], keep) + Select(s[n + 1..], keep)
  {
    assert s == s[..n] + [s[n]] + s[n + 1..];
    SelectSkip(s[..n], s[n], s[n + 1..], keep);
  }

  lemma ConcatSingle<T>(piece: seq<T>)
    ensures Concat(Single(piece)) == piece
  {
    if piece != [] {
      assert Concat([piece]) == Concat([piece][..0]) + piece;
    }
  }

  /** An element the test rejects leaves no trace in the selection. */
  lemma SelectSkip<T>(a: seq<T>, x: T, b: seq<T>, keep: T -> bool)
    requires !keep(x)
    ensures Select(a + [x] + b, keep) == Select(a, keep) + Select(b, keep)
  {
    SelectAppend(a + [x], b, keep);
    SelectAppend(a, [x], keep);
    assert Select([x], keep) == [] by {
      assert [x][..0] == [];
    }
  }

  /** The blocks of an input: cut it at every blank line and keep, from each piece, the
      lines that are not comments; pieces left with no line give no block. */
  function Blocks(lines: seq<string>): seq<seq<string>> {
    Segments(lines, IsBlank, KeepLine)
  }

  /** An input without blank lines is one block: comment lines inside it do not split it,
      and its last line belongs to it. */
  lemma BlocksNoBlank(lines: seq<string>)
    requires forall k :: 0 <= k < |lines| ==> !IsBlank(lines[k])
    ensures Blocks(lines) == Single(KeptLines(lines))
  {
    SegmentsNoBreak(lines, IsBlank, KeepLine);
  }

  /** A blank line separates the blocks before it from the blocks after it. */
  lemma BlocksSplit(a: seq<string>, x: string, b: seq<string>)
    requires IsBlank(x)
    ensures Blocks(a + [x] + b) == Blocks(a) + Blocks(b)
  {
    SegmentsSplit(a, x, b, IsBlank, KeepLine);
  }

  /** Every block is non-empty and made only of kept lines: no comment and no blank line
      ever reaches a table. */
  lemma BlocksWellFormed(lines: seq<string>)
    ensures forall i :: 0 <= i < |Blocks(lines)| ==>
              Blocks(lines)[i] != [] && forall j :: 0 <= j < |Blocks(lines)[i]| ==> KeepLine(Blocks(lines)[i][j])
  {
    SegmentsWellFormed(lines, IsBlank, KeepLine);
  }

  /** The blocks, laid end to end, are exactly the kept lines in input order: each kept
      line lands in exactly one block. */
  lemma BlocksFlatten(lines: seq<string>)
    ensures Concat(Blocks(lines)) == KeptLines(lines)
  {
    SegmentsFlatten(lines, IsBlank, KeepLine);
  }

  /** Storing the value of an item under the key it names, unless it names none or the
      key is already stored: the first write wins. */
  function Enter<K(==), V, B>(data: map<K, V>, b: B, key: B -> Option<K>, val: B -> V): (r: map<K, V>)
    ensures forall k :: k in data ==> k in r && r[k] == data[k]
    ensures key(b).None? ==> r == data
    ensures key(b).Some? ==> r.Keys == data.Keys + {key(b).value}
    ensures key(b).Some? && key(b).value !in data ==> r[key(b).value] == val(b)
  {
    match key(b)
    case None => data
    case Some(k) => if k in data then data else data[k := val(b)]
  }

  /** The map after entering the items in order. */
  function Fold<K(==), V, B>(data: map<K, V>, bs: seq<B>, key: B -> Option<K>, val: B -> V): map<K, V>
    decreases |bs|
  {
    if bs == [] then data else Enter(Fold(data, bs[..|bs| - 1], key, val), bs[|bs| - 1], key, val)
  }

  lemma {:induction false} FoldAppend<K, V, B>(data: map<K, V>, a: seq<B>, b: seq<B>, key: B -> Option<K>, val: B -> V)
    ensures Fold(data, a + b, key, val) == Fold(Fold(data, a, key, val), b, key, val)
    decreases |b|
  {
    if b == [] {
      assert a + b == a;
    } else {
      assert (a + b)[..|a + b| - 1] == a + b[..|b| - 1];
      assert (a + b)[|a + b| - 1] == b[|b| - 1];
      FoldAppend(data, a, b[..|b| - 1], key, val);
    }
  }

  /** Entering more items never changes a stored key. */
  lemma {:induction false} FoldKeepsExisting<K, V, B>(data: map<K, V>, bs: seq<B>, key: B -> Option<K>, val: B -> V)
    ensures forall k :: k in data ==> k in Fold(data, bs, key, val) && Fold(data, bs, key, val)[k] == data[k]
    decreases |bs|
  {
    if bs != [] {
      FoldKeepsExisting(data, bs[..|bs| - 1], key, val);
    }
  }

  /** After the fold, every key an item names is stored. */
  lemma {:induction false} FoldCovers<K, V, B>(data: map<K, V>, bs: seq<B>, key: B -> Option<K>, val: B -> V)
    ensures forall i :: 0 <= i < |bs| && key(bs[i]).Some? ==> key(bs[i]).value in Fold(data, bs, key, val)
    decreases |bs|
  {
    if bs != [] {
      var init := bs[..|bs| - 1];
      FoldCovers(data, init, key, val);
      forall i | 0 <= i < |bs| && key(bs[i]).Some?
        ensures key(bs[i]).value in Fold(data, bs, key, val)
      {
        if i < |init| {
          assert bs[i] == init[i];
        }
      }
    }
  }

  /** The first item that names an absent key decides it: the key is stored after the
      fold exactly when some item names it, and then holds the value of the first such
      item. */
  lemma {:induction false} FoldFirst<K, V, B>(data: map<K, V>, bs: seq<B>, key: B -> Option<K>, val: B -> V, k: K)
    requires k !in data
    ensures k in Fold(data, bs, key, val) <==> exists i :: 0 <= i < |bs| && key(bs[i]) == Some(k)
    ensures forall i :: 0 <= i < |bs| && key(bs[i]) == Some(k) && (forall j :: 0 <= j < i ==> key(bs[j]) != Some(k)) ==>
              k in Fold(data, bs, key, val) && Fold(data, bs, key, val)[k] == val(bs[i])
    decreases |bs|
  {
    if bs != [] {
      var init := bs[..|bs| - 1];
      var last := bs[|bs| - 1];
      var m := Fold(data, init, key, val);
      FoldFirst(data, init, key, val, k);
      assert Fold(data, bs, key, val) == Enter(m, last, key, val);
      if k in m {
        var j :| 0 <= j < |init| && key(init[j]) == Some(k);
        assert key(bs[j]) == Some(k);
        forall i | 0 <= i < |bs| && key(bs[i]) == Some(k) && (forall j :: 0 <= j < i ==> key(bs[j]) != Some(k))
          ensures Fold(data, bs, key, val)[k] == val(bs[i])
        {
          assert i <= j;
          assert init[i] == bs[i];
          assert forall j' :: 0 <= j' < i ==> init[j'] == bs[j'];
        }
      } else {
        assert forall i :: 0 <= i < |init| ==> init[i] == bs[i];
        if key(last) == Some(k) {
          assert key(bs[|bs| - 1]) == Some(k);
        }
      }
    }
  }

  /** Items whose keys are all stored already change nothing. */
  lemma {:induction false} FoldPresent<K, V, B>(data: map<K, V>, bs: seq<B>, key: B -> Option<K>, val: B -> V)
    requires forall i :: 0 <= i < |bs| && key(bs[i]).Some? ==> key(bs[i]).value in data
    ensures Fold(data, bs, key, val) == data
    decreases |bs|
  {
    if bs != [] {
      FoldPresent(data, bs[..|bs| - 1], key, val);
    }
  }

  /** Folding the same items a second time changes nothing. */
  lemma FoldIdempotent<K, V, B>(data: map<K, V>, bs: seq<B>, key: B -> Option<K>, val: B -> V)
    ensures Fold(Fold(data, bs, key, val), bs, key, val) == Fold(data, bs, key, val)
  {
    FoldCovers(data, bs, key, val);
    FoldPresent(Fold(data, bs, key, val), bs, key, val);
  }

  /** One front-to-back pass in the shape of `parse`: `curr` holds the elements kept since
      the last separator; a separator or the last element enters them and empties `curr`. */
  function Scan<K(==), V, T>(data: map<K, V>, curr: seq<T>, rest: seq<T>,
                             sep: T -> bool, keep: T -> bool, key: seq<T> -> Option<K>, val: seq<T> -> V): map<K, V>
    decreases |rest|
  {
    if rest == [] then data
    else
      var x := rest[0];
      var curr' := if keep(x) then curr + [x] else curr;
      if |rest| == 1 || sep(x) then Scan(Enter(data, curr', key, val), [], rest[1..], sep, keep, key, val)
      else Scan(data, curr', rest[1..], sep, keep, key, val)
  }

  /** Entering one piece is folding the single piece. */
  lemma FoldOne<K, V, T>(data: map<K, V>, b: seq<T>, key: seq<T> -> Option<K>, val: seq<T> -> V)
    requires key([]).None?
    ensures Fold(data, Single(b), key, val) == Enter(data, b, key, val)
  {
    if b != [] {
      assert [b][..0] == [];
    }
  }

  /** The pass, started inside a separator-free piece `seg`, enters exactly the pieces of
      `seg + rest` in order, provided separators are never kept and the last element closes
      the pass. */
  lemma {:induction false} ScanSegments<K, V, T>(data: map<K, V>, seg: seq<T>, rest: seq<T>,
                                                 sep: T -> bool, keep: T -> bool, key: seq<T> -> Option<K>, val: seq<T> -> V)
    requires forall k :: 0 <= k < |seg| ==> !sep(seg[k])
    requires forall k :: 0 <= k < |rest| && sep(rest[k]) ==> !keep(rest[k])
    requires rest != [] || seg == []
    requires key([]).None?
    ensures Scan(data, Select(seg, keep), rest, sep, keep, key, val) == Fold(data, Segments(seg + rest, sep, keep), key, val)
    decreases |rest|
  {
    if rest == [] {
      assert seg + rest == [];
    } else {
      var x := rest[0];
      var rest' := rest[1..];
      var kept := Select(seg, keep);
      assert Select(seg + [x], keep) == if keep(x) then kept + [x] else kept by {
        SelectSnoc(seg, x, keep);
      }
      if sep(x) {
        var entered := Enter(data, kept, key, val);
        assert Scan(data, kept, rest, sep, keep, key, val) == Scan(entered, [], rest', sep, keep, key, val);
        assert Scan(entered, [], rest', sep, keep, key, val) == Fold(entered, Segments(rest', sep, keep), key, val) by {
          assert Select([], keep) == [];
          assert [] + rest' == rest';
          ScanSegments(entered, [], rest', sep, keep, key, val);
        }
        assert Segments(seg + rest, sep, keep) == Single(kept) + Segments(rest', sep, keep) by {
          assert seg + rest == seg + [x] + rest';
          SegmentsSplit(seg, x, rest', sep, keep);
          SegmentsNoBreak(seg, sep, keep);
        }
        assert Fold(data, Single(kept) + Segments(rest', sep, keep), key, val) == Fold(entered, Segments(rest', sep, keep), key, val) by {
          FoldAppend(data, Single(kept), Segments(rest', sep, keep), key, val);
          FoldOne(data, kept, key, val);
        }
      } else if |rest| == 1 {
        assert Segments(seg + rest, sep, keep) == Single(Select(seg + [x], keep)) by {
          assert seg + rest == seg + [x];
          SegmentsNoBreak(seg + [x], sep, keep);
        }
        assert rest' == [];
        assert Scan(data, kept, rest, sep, keep, key, val) == Enter(data, Select(seg + [x], keep), key, val);
        FoldOne(data, Select(seg + [x], keep), key, val);
      } else {
        assert Scan(data, kept, rest, sep, keep, key, val) == Scan(data, Select(seg + [x], keep), rest', sep, keep, key, val);
        assert seg + rest == (seg + [x]) + rest';
        ScanSegments(data, seg + [x], rest', sep, keep, key, val);
      }
    }
  }

  /** The section a block names: the one its first line's header matches; an empty block
      names none. */
  function BlockSection(block: seq<string>): (r: Option<Section>)
    ensures block == [] ==> r.None?
  {
    if block == [] then None else MatchHeader(block[0])
  }

  /** What flushing one block does to the section map: an empty block or an unknown header
      changes nothing, and a known section is stored, with the block's table, only when it
      is still absent. */
  function Flush(data: map<Section, Table>, block: seq<string>): (r: map<Section, Table>)
    ensures forall s :: s in data ==> s in r && r[s] == data[s]
    ensures block == [] || MatchHeader(block[0]).None? ==> r == data
    ensures block != [] && MatchHeader(block[0]).Some? ==> r.Keys == data.Keys + {MatchHeader(block[0]).value}
    ensures block != [] && MatchHeader(block[0]).Some? && MatchHeader(block[0]).value !in data ==>
              r[MatchHeader(block[0]).value] == ParseTable(block)
  {
    Enter(data, block, BlockSection, ParseTable)
  }

  /** The section map after flushing the blocks in order. */
  function Absorb(data: map<Section, Table>, blocks: seq<seq<string>>): map<Section, Table> {
    Fold(data, blocks, BlockSection, ParseTable)
  }

  /** First write wins: a stored section keeps its table whatever blocks follow. */
  lemma AbsorbKeepsExisting(data: map<Section, Table>, blocks: seq<seq<string>>)
    ensures forall s :: s in data ==> s in Absorb(data, blocks) && Absorb(data, blocks)[s] == data[s]
  {
    FoldKeepsExisting(data, blocks, BlockSection, ParseTable);
  }

  /** After absorbing blocks, every section one of them names is present. */
  lemma AbsorbCovers(data: map<Section, Table>, blocks: seq<seq<string>>)
    ensures forall i :: 0 <= i < |blocks| && BlockSection(blocks[i]).Some? ==>
              BlockSection(blocks[i]).value in Absorb(data, blocks)
  {
    FoldCovers(data, blocks, BlockSection, ParseTable);
  }

  /** A section absent before is present after absorbing the blocks exactly when one of
      them names it, and then holds the table of the first block that does. */
  lemma AbsorbFirst(data: map<Section, Table>, blocks: seq<seq<string>>, s: Section)
    requires s !in data
    ensures s in Absorb(data, blocks) <==> exists i :: 0 <= i < |blocks| && BlockSection(blocks[i]) == Some(s)
    ensures forall i :: (0 <= i < |blocks| && BlockSection(blocks[i]) == Some(s) &&
                         forall j :: 0 <= j < i ==> BlockSection(blocks[j]) != Some(s)) ==>
              s in Absorb(data, blocks) && Absorb(data, blocks)[s] == ParseTable(blocks[i])
  {
    FoldFirst(data, blocks, BlockSection, ParseTable, s);
  }

  /** Parsing the same input a second time into the same reader changes nothing. */
  lemma AbsorbIdempotent(data: map<Section, Table>, blocks: seq<seq<string>>)
    ensures Absorb(Absorb(data, blocks), blocks) == Absorb(data, blocks)
  {
    FoldIdempotent(data, blocks, BlockSection, ParseTable);
  }

  /** A set whose every element occurs in a sequence is no larger than the sequence. */
  lemma {:induction false} CoveredSize<T>(a: set<T>, s: seq<T>)
    requires forall x :: x in a ==> x in s
    ensures |a| <= |s|
    decreases |s|
  {
    if s == [] {
      assert a == {};
    } else {
      var last := s[|s| - 1];
      var init := s[..|s| - 1];
      forall x | x in a - {last}
        ensures x in init
      {
        var i :| 0 <= i < |s| && s[i] == x;
        assert init[i] == x;
      }
      CoveredSize(a - {last}, init);
    }
  }

  /** A section map never holds more than the fifteen sections. */
  lemma SectionCount(data: map<Section, Table>)
    ensures |data| <= 15
  {
    forall s | s in data.Keys
      ensures s in AllSections
    {
      AllSectionsComplete(s);
    }
    CoveredSize(data.Keys, AllSections);
  }

  /** The reader of lib/reader.rb: a section map filled by `parse` and never reset. */
  class Reader {
    var data: map<Section, Table>

    constructor ()
      ensures data == map[]
    {
      data := map[];
    }

    /** `process_lines`: identify the block by its first line and store its table unless
        the section is unknown or already stored. */
    method ProcessLines(lines: seq<string>)
      requires lines != []
      modifies this
      ensures data == Flush(old(data), lines)
    {
      var section := MatchHeader(lines[0]);
      assert section == BlockSection(lines);
      if section.None? {
        return;
      }
      var parsed := ParseTable(lines);
      if section.value !in data {
        data := data[section.value := parsed];
      }
      assert data == Enter(old(data), lines, BlockSection, ParseTable);
    }

    /** `parse`: walk the lines with a buffer, pushing kept lines and flushing the buffer
        at a blank line or at the last line. */
    method Parse(input: seq<string>)
      modifies this
      ensures data == Absorb(old(data), Blocks(input))
      ensures forall s :: s in old(data) ==> s in data && data[s] == old(data)[s]
    {
      var curr: seq<string> := [];
      var idx := 0;
      while idx < |input|
        invariant idx <= |input|
        invariant Scan(data, curr, input[idx..], IsBlank, KeepLine, BlockSection, ParseTable)
               == Scan(old(data), [], input, IsBlank, KeepLine, BlockSection, ParseTable)
      {
        var line := input[idx];
        var blank := Strip(line) == [];
        StripEmptyIffBlank(line);
        assert input[idx..][1..] == input[idx + 1..];
        if !(IsComment(line) || blank) {
          curr := curr + [line];
        }
        if idx == |input| - 1 || blank {
          if curr != [] {
            ProcessLines(curr);
          }
          curr := [];
        }
        idx := idx + 1;
      }
      assert input == [] + input;
      ScanSegments(old(data), [], input, IsBlank, KeepLine, BlockSection, ParseTable);
      AbsorbKeepsExisting(old(data), Blocks(input));
    }
  }
}
