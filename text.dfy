/** The few Ruby `String` operations the reader and the wrapper rely on: `strip`,
    `downcase`, `include?`, splitting on a separator, `to_i` and `to_f`. */
module Text {

  /** The characters Ruby's `String#strip` removes: null, tab, line feed, vertical tab,
      form feed, carriage return and space. */
  predicate IsSpace(c: char) {
    IsNumberSpace(c) || c == '\0'
  }

  /** The characters `String#to_i` and `String#to_f` skip before a number: tab, line feed,
      vertical tab, form feed, carriage return and space, but not null. */
  predicate IsNumberSpace(c: char) {
    c == ' ' || c == '\t' || c == '\n' || c == '\U{000B}' || c == '\U{000C}' || c == '\r'
  }

  predicate AllSpace(s: string) {
    forall k :: 0 <= k < |s| ==> IsSpace(s[k])
  }

  /** `lstrip`: drop the leading whitespace. */
  function TrimStart(s: string): (r: string)
    ensures |r| <= |s| && r == s[|s| - |r|..]
    ensures AllSpace(s[..|s| - |r|])
    ensures r == [] || !IsSpace(r[0])
  {
    if s != [] && IsSpace(s[0]) then
      var r := TrimStart(s[1..]);
      assert s[..|s| - |r|] == [s[0]] + s[1..][..|s| - 1 - |r|];
      r
    else s
  }

  /** `rstrip`: drop the trailing whitespace. */
  function TrimEnd(s: string): (r: string)
    ensures |r| <= |s| && r == s[..|r|]
    ensures AllSpace(s[|r|..])
    ensures r == [] || !IsSpace(r[|r| - 1])
  {
    if s != [] && IsSpace(s[|s| - 1]) then
      var r := TrimEnd(s[..|s| - 1]);
      assert s[|r|..] == s[..|s| - 1][|r|..] + [s[|s| - 1]];
      r
    else s
  }

  /** `strip`: the part of `s` between its leading and its trailing whitespace. */
  function Strip(s: string): (r: string)
    ensures |r| <= |s|
    ensures r == [] || (!IsSpace(r[0]) && !IsSpace(r[|r| - 1]))
    ensures r == [] <==> AllSpace(s)
  {
    var t := TrimStart(s);
    var r := TrimEnd(t);
    assert r == [] ==> s == s[..|s| - |t|] + t[|r|..];
    assert r != [] ==> r[0] == t[0];
    assert t != [] ==> t[0] == s[|s| - |t|];
    r
  }

  /** Whitespace around a text that neither starts nor ends with whitespace is exactly
      what `strip` removes. */
  lemma {:induction false} StripPadded(w1: string, t: string, w2: string)
    requires AllSpace(w1) && AllSpace(w2)
    requires t == [] || (!IsSpace(t[0]) && !IsSpace(t[|t| - 1]))
    ensures Strip(w1 + t + w2) == t
  {
    if t == [] {
      assert w1 + t + w2 == w1 + w2;
      assert AllSpace(w1 + w2) by {
        forall k | 0 <= k < |w1 + w2| ensures IsSpace((w1 + w2)[k]) {
          if k >= |w1| { assert (w1 + w2)[k] == w2[k - |w1|]; }
        }
      }
    } else {
      assert w1 + t + w2 == w1 + (t + w2);
      TrimStartPadded(w1, t + w2);
      TrimEndPadded(t, w2);
    }
  }

  lemma {:induction false} TrimStartPadded(w: string, u: string)
    requires AllSpace(w)
    requires u == [] || !IsSpace(u[0])
    ensures TrimStart(w + u) == u
    decreases |w|
  {
    if w != [] {
      assert (w + u)[1..] == w[1..] + u;
      TrimStartPadded(w[1..], u);
    } else {
      assert w + u == u;
    }
  }

  lemma {:induction false} TrimEndPadded(u: string, w: string)
    requires AllSpace(w)
    requires u == [] || !IsSpace(u[|u| - 1])
    ensures TrimEnd(u + w) == u
    decreases |w|
  {
    if w != [] {
      assert (u + w)[..|u + w| - 1] == u + w[..|w| - 1];
      TrimEndPadded(u, w[..|w| - 1]);
    } else {
      assert u + w == u;
    }
  }

  /** `strip` is idempotent. */
  lemma StripIdempotent(s: string)
    ensures Strip(Strip(s)) == Strip(s)
  {
    StripPadded([], Strip(s), []);
    assert [] + Strip(s) + [] == Strip(s);
  }

  /** ASCII `downcase` of one character. */
  function LowerChar(c: char): char {
    if 'A' <= c <= 'Z' then (c as int + 32) as char else c
  }

  /** `downcase`, on the ASCII letters. */
  function Lower(s: string): (r: string)
    ensures |r| == |s|
    ensures forall i :: 0 <= i < |s| ==> r[i] == LowerChar(s[i])
  {
    if s == [] then [] else [LowerChar(s[0])] + Lower(s[1..])
  }

  /** Downcasing twice is downcasing once. */
  lemma LowerIdempotent(s: string)
    ensures Lower(Lower(s)) == Lower(s)
  {
    assert forall i :: 0 <= i < |s| ==> LowerChar(LowerChar(s[i])) == LowerChar(s[i]);
  }

  predicate StartsWith(s: string, t: string) {
    |t| <= |s| && s[..|t|] == t
  }

  /** `String#include?`: `t` occurs in `s`. */
  function Contains(s: string, t: string): bool
    decreases |s|
  {
    StartsWith(s, t) || (s != [] && Contains(s[1..], t))
  }

  /** `Contains` holds exactly when `t` occurs at some position of `s`. */
  lemma {:induction false} ContainsIff(s: string, t: string)
    ensures Contains(s, t) <==> exists i :: 0 <= i <= |s| && StartsWith(s[i..], t)
    decreases |s|
  {
    assert s[0..] == s;
    if s != [] {
      ContainsIff(s[1..], t);
      if Contains(s[1..], t) {
        var i :| 0 <= i <= |s[1..]| && StartsWith(s[1..][i..], t);
        assert s[1..][i..] == s[i + 1..];
      }
      if j :| 0 <= j <= |s| && StartsWith(s[j..], t) {
        if j == 0 {
          assert s[j..] == s;
        } else {
          assert s[1..][j - 1..] == s[j..];
        }
      }
    } else {
      assert s[0..] == s;
    }
  }

  /** The index of the first `c` in `s`, or `|s|` when there is none. */
  function IndexOf(s: string, c: char): (i: nat)
    ensures i <= |s|
    ensures forall k :: 0 <= k < i ==> s[k] != c
    ensures i < |s| ==> s[i] == c
  {
    if s == [] then 0 else if s[0] == c then 0 else 1 + IndexOf(s[1..], c)
  }

  /** `String#split(sep, -1)`: the pieces between the separators, empty pieces kept. */
  function Split(s: string, sep: char): (r: seq<string>)
    ensures |r| >= 1
    decreases |s|
  {
    var i := IndexOf(s, sep);
    if i == |s| then [s] else [s[..i]] + Split(s[i + 1..], sep)
  }

  /** The inverse of `Split`: the pieces glued back with the separator between them. */
  function Join(pieces: seq<string>, sep: char): string
    decreases |pieces|
  {
    if pieces == [] then []
    else if |pieces| == 1 then pieces[0]
    else pieces[0] + [sep] + Join(pieces[1..], sep)
  }

  /** Splitting at the first separator. */
  lemma SplitFirst(a: string, sep: char, b: string)
    requires sep !in a
    ensures Split(a + [sep] + b, sep) == [a] + Split(b, sep)
  {
    var s := a + [sep] + b;
    var i := IndexOf(s, sep);
    assert forall k :: 0 <= k < |a| ==> s[k] == a[k] && a[k] in a;
    assert s[|a|] == sep;
    assert i == |a|;
    assert s[..i] == a && s[i + 1..] == b;
  }

  /** Round trip: gluing the pieces of a split gives back the text, and no piece holds
      the separator. */
  lemma {:induction false} JoinSplit(s: string, sep: char)
    ensures Join(Split(s, sep), sep) == s
    ensures forall k :: 0 <= k < |Split(s, sep)| ==> sep !in Split(s, sep)[k]
    decreases |s|
  {
    var i := IndexOf(s, sep);
    if i < |s| {
      var a, b := s[..i], s[i + 1..];
      assert s == a + [sep] + b;
      assert sep !in a by {
        forall k | 0 <= k < |a| ensures a[k] != sep { assert a[k] == s[k]; }
      }
      JoinSplit(b, sep);
      var rest := Split(b, sep);
      assert Split(s, sep) == [a] + rest;
      assert ([a] + rest)[1..] == rest;
    } else {
      assert sep !in s by {
        forall k | 0 <= k < |s| ensures s[k] != sep { }
      }
    }
  }

  /** Round trip the other way: splitting a join of separator-free pieces gives back
      the pieces. */
  lemma {:induction false} SplitJoin(pieces: seq<string>, sep: char)
    requires pieces != []
    requires forall k :: 0 <= k < |pieces| ==> sep !in pieces[k]
    ensures Split(Join(pieces, sep), sep) == pieces
    decreases |pieces|
  {
    if |pieces| == 1 {
      var s := pieces[0];
      assert IndexOf(s, sep) == |s| by {
        forall k | 0 <= k < |s| ensures s[k] != sep { assert s[k] in s; }
      }
    } else {
      SplitJoin(pieces[1..], sep);
      SplitFirst(pieces[0], sep, Join(pieces[1..], sep));
      assert [pieces[0]] + pieces[1..] == pieces;
    }
  }

  predicate IsDigit(c: char) {
    '0' <= c <= '9'
  }

  function DigitValue(c: char): (d: nat)
    requires IsDigit(c)
    ensures d <= 9
  {
    c as int - '0' as int
  }

  /** The value of a text of decimal digits, most significant first: the reference
      reading of a number. */
  function DigitsValue(ds: string): nat
    requires forall k :: 0 <= k < |ds| ==> IsDigit(ds[k])
  {
    if ds == [] then 0 else DigitsValue(ds[..|ds| - 1]) * 10 + DigitValue(ds[|ds| - 1])
  }

  /** The run of digits that starts `s`, read onto the value `acc` already read, as
      `to_i` reads it: left to right, stopping at the first character that is not a digit. */
  function LeadingValue(s: string, acc: nat): nat {
    if s != [] && IsDigit(s[0]) then LeadingValue(s[1..], acc * 10 + DigitValue(s[0])) else acc
  }

  /** The length of the run of digits that starts `s`. */
  function DigitRun(s: string): (n: nat)
    ensures n <= |s|
  {
    if s != [] && IsDigit(s[0]) then 1 + DigitRun(s[1..]) else 0
  }

  /** `String#to_i`: leading whitespace is skipped, an optional sign is taken, and the
      run of digits after it is read; 0 when there is no digit. */
  function ToI(s: string): int {
    if s != [] && IsNumberSpace(s[0]) then ToI(s[1..])
    else if s != [] && s[0] == '-' then -(LeadingValue(s[1..], 0) as int)
    else if s != [] && s[0] == '+' then LeadingValue(s[1..], 0)
    else LeadingValue(s, 0)
  }

  /** The value of the run of digits that starts `s`, read as the digits after a decimal
      point. */
  function FractionValue(s: string): (v: real)
    ensures 0.0 <= v < 1.0
  {
    if s != [] && IsDigit(s[0]) then DigitValue(s[0]) as real / 10.0 + FractionValue(s[1..]) / 10.0 else 0.0
  }

  /** The fractional part `.ddd` that may follow the integer digits. */
  function FractionAfter(rest: string): (v: real)
    ensures 0.0 <= v < 1.0
  {
    if |rest| >= 2 && rest[0] == '.' && IsDigit(rest[1]) then FractionValue(rest[1..]) else 0.0
  }

  /** `String#to_f`: leading whitespace is skipped, an optional sign is taken, and the
      decimal number after it, with an optional fraction, is read; 0.0 when there is no
      number. */
  function ToF(s: string): real {
    if s != [] && IsNumberSpace(s[0]) then ToF(s[1..])
    else if s != [] && s[0] == '-' then -UnsignedValue(s[1..])
    else if s != [] && s[0] == '+' then UnsignedValue(s[1..])
    else UnsignedValue(s)
  }

  /** The integer digits and the fraction that start `t`. */
  function UnsignedValue(t: string): (v: real)
    ensures v >= 0.0
  {
    LeadingValue(t, 0) as real + FractionAfter(t[DigitRun(t)..])
  }

  /** Reading digits one at a time onto an accumulator agrees with the reference reading:
      the digits already read are shifted one place for every further digit. */
  lemma {:induction false} LeadingValueOfDigits(ds: string)
    requires forall k :: 0 <= k < |ds| ==> IsDigit(ds[k])
    ensures LeadingValue(ds, 0) == DigitsValue(ds)
    decreases |ds|
  {
    if ds != [] {
      var init := ds[..|ds| - 1];
      LeadingValueOfDigits(init);
      LeadingValueAppend(init, ds[|ds| - 1], 0);
      assert init + [ds[|ds| - 1]] == ds;
    }
  }

  /** Reading one more digit after a run of digits shifts the value read so far. */
  lemma {:induction false} LeadingValueAppend(ds: string, c: char, acc: nat)
    requires forall k :: 0 <= k < |ds| ==> IsDigit(ds[k])
    requires IsDigit(c)
    ensures LeadingValue(ds + [c], acc) == LeadingValue(ds, acc) * 10 + DigitValue(c)
    decreases |ds|
  {
    if ds == [] {
      assert [c][1..] == [];
    } else {
      assert (ds + [c])[1..] == ds[1..] + [c];
      LeadingValueAppend(ds[1..], c, acc * 10 + DigitValue(ds[0]));
    }
  }

  /** On a text of digits only, `to_i` is the decimal value of the digits. */
  lemma ToIOfDigits(s: string)
    requires forall k :: 0 <= k < |s| ==> IsDigit(s[k])
    ensures ToI(s) == DigitsValue(s)
  {
    assert s != [] ==> IsDigit(s[0]) && !IsNumberSpace(s[0]);
    LeadingValueOfDigits(s);
  }

  /** On a text of digits only, `to_f` and `to_i` agree. */
  lemma ToFOfDigits(s: string)
    requires forall k :: 0 <= k < |s| ==> IsDigit(s[k])
    ensures ToF(s) == ToI(s) as real
  {
    assert s != [] ==> IsDigit(s[0]) && !IsNumberSpace(s[0]);
    DigitRunAll(s);
    assert s[|s|..] == [];
  }

  lemma {:induction false} DigitRunAll(s: string)
    requires forall k :: 0 <= k < |s| ==> IsDigit(s[k])
    ensures DigitRun(s) == |s|
    decreases |s|
  {
    if s != [] {
      DigitRunAll(s[1..]);
    }
  }

  /** Leading whitespace of the kind `to_i` and `to_f` skip changes neither reading. */
  lemma {:induction false} NumberSpaceSkipped(w: string, s: string)
    requires forall k :: 0 <= k < |w| ==> IsNumberSpace(w[k])
    ensures ToI(w + s) == ToI(s) && ToF(w + s) == ToF(s)
    decreases |w|
  {
    if w == [] {
      assert w + s == s;
    } else {
      assert (w + s)[0] == w[0] && (w + s)[1..] == w[1..] + s;
      NumberSpaceSkipped(w[1..], s);
    }
  }

  /** `to_i` skips leading whitespace, takes a sign, and stops at the first character
      that is not a digit; a text without a number reads as 0, and so does one that starts
      with a null, which `strip` would drop but `to_i` does not skip. */
  lemma IntegerExamples()
    ensures ToI(" -42 users") == -42
    ensures ToI("abc") == 0
    ensures ToI(['\0', '5']) == 0
  {
    assert " -42 users"[1..] == "-42 users" && "-42 users"[1..] == "42 users";
    assert LeadingValue(" users", 42) == 42;
    assert LeadingValue("2 users", 4) == 42 by { assert "2 users"[1..] == " users"; }
    assert LeadingValue("42 users", 0) == 42 by { assert "42 users"[1..] == "2 users"; }
  }

  /** `to_f` reads the integer digits and the fraction after the point, and stops at the
      first character that does not belong to the number. */
  lemma DecimalExample()
    ensures ToF("12.5%") == 12.5
  {
    var f := "12.5%";
    assert LeadingValue(".5%", 12) == 12;
    assert LeadingValue("2.5%", 1) == 12 by { assert "2.5%"[1..] == ".5%"; }
    assert LeadingValue(f, 0) == 12 by { assert f[1..] == "2.5%"; }
    assert DigitRun(".5%") == 0;
    assert DigitRun("2.5%") == 1 by { assert "2.5%"[1..] == ".5%"; }
    assert DigitRun(f) == 2 by { assert f[1..] == "2.5%"; }
    assert f[2..] == ".5%" && ".5%"[1..] == "5%" && "5%"[1..] == "%";
    assert FractionValue("%") == 0.0;
    assert FractionValue("5%") == 0.5;
  }
}
