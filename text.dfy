/** String handling the pipeline relies on: Python's `str.strip`, ASCII case mapping, decimal
    rendering and parsing, the `,` thousands separator of format specs, `html.escape`, and
    joining and splitting on a separator. */
module Text {
  import opened Wrappers

  // ---------------------------------------------------------------- Whitespace and strip

  /** The characters Python's `str.isspace` accepts, which `str.strip()` removes. */
  predicate IsSpace(c: char) {
    || ('\U{9}' <= c <= '\U{D}') || ('\U{1C}' <= c <= '\U{20}')
    || c == '\U{85}' || c == '\U{A0}' || c == '\U{1680}'
    || ('\U{2000}' <= c <= '\U{200A}') || c == '\U{2028}' || c == '\U{2029}'
    || c == '\U{202F}' || c == '\U{205F}' || c == '\U{3000}'
  }

  function StripLeft(s: string): string {
    if s != [] && IsSpace(s[0]) then StripLeft(s[1..]) else s
  }

  function StripRight(s: string): string {
    if s != [] && IsSpace(s[|s| - 1]) then StripRight(s[..|s| - 1]) else s
  }

  /** Python `str.strip()`: drops leading and trailing whitespace. */
  function Strip(s: string): string {
    StripRight(StripLeft(s))
  }

  lemma {:induction false} StripLeftSpec(s: string)
    ensures StripLeft(s) == [] || !IsSpace(StripLeft(s)[0])
  {
    if s != [] && IsSpace(s[0]) {
      StripLeftSpec(s[1..]);
    }
  }

  lemma {:induction false} StripRightSpec(s: string)
    ensures StripRight(s) == [] || !IsSpace(StripRight(s)[|StripRight(s)| - 1])
  {
    if s != [] && IsSpace(s[|s| - 1]) {
      StripRightSpec(s[..|s| - 1]);
    }
  }

  lemma {:induction false} StripRightKeepsFirst(s: string)
    requires s != [] && !IsSpace(s[0])
    ensures StripRight(s) != [] && StripRight(s)[0] == s[0]
  {
    if IsSpace(s[|s| - 1]) {
      StripRightKeepsFirst(s[..|s| - 1]);
    }
  }

  /** Every character of `s[lo..hi]` is whitespace. */
  predicate SpaceRun(s: string, lo: nat, hi: nat)
    requires lo <= hi <= |s|
  {
    forall k :: lo <= k < hi ==> IsSpace(s[k])
  }

  lemma {:induction false} StripLeftAt(s: string) returns (i: nat)
    ensures i <= |s| && StripLeft(s) == s[i..] && SpaceRun(s, 0, i)
  {
    if s != [] && IsSpace(s[0]) {
      var i' := StripLeftAt(s[1..]);
      i := i' + 1;
      assert s[1..][i'..] == s[i..];
      forall k | 0 <= k < i ensures IsSpace(s[k]) {
        if k > 0 {
          assert s[k] == s[1..][k - 1];
        }
      }
    } else {
      i := 0;
    }
  }

  lemma {:induction false} StripRightAt(s: string) returns (j: nat)
    ensures j <= |s| && StripRight(s) == s[..j] && SpaceRun(s, j, |s|)
  {
    if s != [] && IsSpace(s[|s| - 1]) {
      var init := s[..|s| - 1];
      j := StripRightAt(init);
      assert init[..j] == s[..j];
      forall k | j <= k < |s| ensures IsSpace(s[k]) {
        if k < |s| - 1 {
          assert s[k] == init[k];
        }
      }
    } else {
      j := |s|;
    }
  }

  /** `strip` removes only whitespace, and only at the two ends. */
  lemma StripSpec(s: string)
    ensures exists i, j :: 0 <= i <= j <= |s| && Strip(s) == s[i..j] && SpaceRun(s, 0, i) && SpaceRun(s, j, |s|)
  {
    var i := StripLeftAt(s);
    var t := s[i..];
    var j := StripRightAt(t);
    assert t[..j] == s[i..i + j];
    forall k | i + j <= k < |s| ensures IsSpace(s[k]) {
      assert s[k] == t[k - i];
    }
    assert SpaceRun(s, i + j, |s|);
  }

  /** `strip` leaves no whitespace at either end. */
  lemma StripEnds(s: string)
    ensures Strip(s) == [] || (!IsSpace(Strip(s)[0]) && !IsSpace(Strip(s)[|Strip(s)| - 1]))
  {
    var t := StripLeft(s);
    StripLeftSpec(s);
    StripRightSpec(t);
    if t != [] {
      StripRightKeepsFirst(t);
    }
  }

  lemma {:induction false} StripLeftNoop(s: string)
    requires s == [] || !IsSpace(s[0])
    ensures StripLeft(s) == s
  {
  }

  lemma {:induction false} StripRightNoop(s: string)
    requires s == [] || !IsSpace(s[|s| - 1])
    ensures StripRight(s) == s
  {
  }

  /** Stripping twice is stripping once. */
  lemma StripIdempotent(s: string)
    ensures Strip(Strip(s)) == Strip(s)
  {
    StripEnds(s);
    var t := Strip(s);
    StripLeftNoop(t);
    StripRightNoop(t);
  }

  // ---------------------------------------------------------------- Case mapping

  function LowerChar(c: char): char {
    if 'A' <= c <= 'Z' then (c as int + 32) as char else c
  }

  function UpperChar(c: char): char {
    if 'a' <= c <= 'z' then (c as int - 32) as char else c
  }

  /** `str.lower()` on ASCII letters. */
  function Lower(s: string): (r: string)
    ensures |r| == |s| && forall i :: 0 <= i < |s| ==> r[i] == LowerChar(s[i])
  {
    if s == [] then [] else [LowerChar(s[0])] + Lower(s[1..])
  }

  /** `str.upper()` on ASCII letters. */
  function Upper(s: string): (r: string)
    ensures |r| == |s| && forall i :: 0 <= i < |s| ==> r[i] == UpperChar(s[i])
  {
    if s == [] then [] else [UpperChar(s[0])] + Upper(s[1..])
  }

  lemma LowerIdempotent(s: string)
    ensures Lower(Lower(s)) == Lower(s)
  {
  }

  /** Lower-casing a trimmed string leaves it trimmed: case mapping never touches whitespace. */
  lemma LowerKeepsStripped(s: string)
    ensures Strip(Lower(Strip(s))) == Lower(Strip(s))
  {
    StripEnds(s);
    var t := Lower(Strip(s));
    StripLeftNoop(t);
    StripRightNoop(t);
  }

  // ---------------------------------------------------------------- Decimal digits

  predicate IsDigit(c: char) {
    '0' <= c <= '9'
  }

  /** A non-empty run of decimal digits. */
  predicate IsDigits(s: string) {
    |s| > 0 && forall i :: 0 <= i < |s| ==> IsDigit(s[i])
  }

  function DigitChar(d: nat): char
    requires d < 10
  {
    ('0' as int + d) as char
  }

  function DigitValue(c: char): nat
    requires IsDigit(c)
  {
    c as int - '0' as int
  }

  /** The number a run of digits denotes. */
  function DigitsValue(s: string): nat
    requires forall i :: 0 <= i < |s| ==> IsDigit(s[i])
  {
    if s == [] then 0 else DigitsValue(s[..|s| - 1]) * 10 + DigitValue(s[|s| - 1])
  }

  /** `str(n)` for a non-negative integer. */
  function NatToString(n: nat): string {
    if n < 10 then [DigitChar(n)] else NatToString(n / 10) + [DigitChar(n % 10)]
  }

  function Pow10(k: nat): (r: nat)
    ensures r >= 1
  {
    if k == 0 then 1 else 10 * Pow10(k - 1)
  }

  /** A run of `k` zero digits. */
  function Zeros(k: nat): (r: string)
    ensures |r| == k && forall i :: 0 <= i < k ==> r[i] == '0'
  {
    if k == 0 then [] else ['0'] + Zeros(k - 1)
  }

  /** `f"{n:0{width}d}"` (as in `%02d` or `%Y`): the digits of `n`, zero-padded on the left to
      `width`. */
  function ZeroPad(n: nat, width: nat): string {
    var s := NatToString(n);
    if |s| < width then Zeros(width - |s|) + s else s
  }

  /** `str(n)` is a run of digits denoting `n`, with no leading zero. */
  lemma {:induction false} NatToStringSpec(n: nat)
    ensures IsDigits(NatToString(n))
    ensures DigitsValue(NatToString(n)) == n
    ensures NatToString(n)[0] == '0' ==> n == 0
    ensures n < 10 <==> |NatToString(n)| == 1
  {
    if n >= 10 {
      NatToStringSpec(n / 10);
      var s := NatToString(n / 10) + [DigitChar(n % 10)];
      assert s[..|s| - 1] == NatToString(n / 10);
    }
  }

  /** Distinct numbers render differently. */
  lemma NatToStringInjective(m: nat, n: nat)
    requires NatToString(m) == NatToString(n)
    ensures m == n
  {
    NatToStringSpec(m);
    NatToStringSpec(n);
  }

  lemma {:induction false} NatToStringLength(n: nat, w: nat)
    requires 1 <= w && n < Pow10(w)
    ensures |NatToString(n)| <= w
  {
    if n >= 10 {
      assert Pow10(1) == 10;
      assert n / 10 < Pow10(w - 1);
      NatToStringLength(n / 10, w - 1);
    }
  }

  lemma {:induction false} ZerosValue(z: string)
    requires forall i :: 0 <= i < |z| ==> z[i] == '0'
    ensures DigitsValue(z) == 0
  {
    if z != [] {
      ZerosValue(z[..|z| - 1]);
    }
  }

  /** Leading zeros do not change the value of a run of digits. */
  lemma {:induction false} LeadingZeros(z: string, s: string)
    requires forall i :: 0 <= i < |z| ==> z[i] == '0'
    requires forall i :: 0 <= i < |s| ==> IsDigit(s[i])
    ensures forall i :: 0 <= i < |z + s| ==> IsDigit((z + s)[i])
    ensures DigitsValue(z + s) == DigitsValue(s)
  {
    if s == [] {
      assert z + s == z;
      ZerosValue(z);
    } else {
      var zs := z + s;
      assert zs[..|zs| - 1] == z + s[..|s| - 1];
      LeadingZeros(z, s[..|s| - 1]);
    }
  }

  /** Zero padding gives exactly `width` digits and keeps the value, whenever the value fits. */
  lemma ZeroPadSpec(n: nat, width: nat)
    requires 1 <= width && n < Pow10(width)
    ensures |ZeroPad(n, width)| == width && IsDigits(ZeroPad(n, width)) && DigitsValue(ZeroPad(n, width)) == n
  {
    NatToStringSpec(n);
    NatToStringLength(n, width);
    var s := NatToString(n);
    if |s| < width {
      LeadingZeros(Zeros(width - |s|), s);
    }
  }

  lemma {:induction false} DigitsValueBound(s: string)
    requires forall i :: 0 <= i < |s| ==> IsDigit(s[i])
    ensures DigitsValue(s) < Pow10(|s|)
  {
    if s != [] {
      var p := s[..|s| - 1];
      DigitsValueBound(p);
      assert DigitsValue(s) == DigitsValue(p) * 10 + DigitValue(s[|s| - 1]);
      assert DigitsValue(p) * 10 <= (Pow10(|p|) - 1) * 10;
    }
  }

  lemma LastDigit(x: nat, d: nat)
    requires d < 10
    ensures (x * 10 + d) % 10 == d && (x * 10 + d) / 10 == x
  {
  }

  /** Two runs of digits of the same length with the same value are the same text. */
  lemma {:induction false} DigitsInjective(a: string, b: string)
    requires |a| == |b|
    requires forall i :: 0 <= i < |a| ==> IsDigit(a[i])
    requires forall i :: 0 <= i < |b| ==> IsDigit(b[i])
    requires DigitsValue(a) == DigitsValue(b)
    ensures a == b
  {
    if a != [] {
      var pa, pb := a[..|a| - 1], b[..|b| - 1];
      var da, db := DigitValue(a[|a| - 1]), DigitValue(b[|b| - 1]);
      LastDigit(DigitsValue(pa), da);
      LastDigit(DigitsValue(pb), db);
      assert da == db;
      DigitsInjective(pa, pb);
      assert a == pa + [a[|a| - 1]];
      assert b == pb + [b[|b| - 1]];
    }
  }

  /** A run of digits is the zero-padded rendering of its own value at its own width. */
  lemma ZeroPadOfDigits(t: string)
    requires IsDigits(t)
    ensures ZeroPad(DigitsValue(t), |t|) == t
  {
    DigitsValueBound(t);
    ZeroPadSpec(DigitsValue(t), |t|);
    DigitsInjective(ZeroPad(DigitsValue(t), |t|), t);
  }

  // ---------------------------------------------------------------- Signed decimal parsing

  function IndexOf(s: string, c: char): (i: nat)
    requires c in s
    ensures i < |s| && s[i] == c && c !in s[..i]
  {
    if s[0] == c then 0 else 1 + IndexOf(s[1..], c)
  }

  function UnsignedDecimal(s: string): Option<real> {
    if '.' in s then
      var i := IndexOf(s, '.');
      var w := s[..i];
      var f := s[i + 1..];
      if (w == [] && f == []) || (w != [] && !IsDigits(w)) || (f != [] && !IsDigits(f)) then None
      else Some(DigitsValue(w) as real + DigitsValue(f) as real / Pow10(|f|) as real)
    else if IsDigits(s) then Some(DigitsValue(s) as real)
    else None
  }

  /** Decimal text as `pd.to_numeric` reads it: an optional sign, digits, an optional fraction. */
  function ParseDecimal(s: string): Option<real> {
    if s != [] && (s[0] == '-' || s[0] == '+') then
      match UnsignedDecimal(s[1..])
      case Some(x) => Some(if s[0] == '-' then -x else x)
      case None => None
    else UnsignedDecimal(s)
  }

  /** A rendered integer parses back to itself. */
  lemma ParseDecimalOfNat(n: nat)
    ensures ParseDecimal(NatToString(n)) == Some(n as real)
    ensures ParseDecimal("-" + NatToString(n)) == Some(-(n as real))
  {
    NatToStringSpec(n);
    var s := NatToString(n);
    assert forall i :: 0 <= i < |s| ==> s[i] != '.';
    assert ("-" + s)[1..] == s;
  }

  // ---------------------------------------------------------------- Thousands separators

  /** Inserts a comma every three digits from the right (the `,` option of a format spec). */
  function Group3(d: string): string {
    if |d| <= 3 then d else Group3(d[..|d| - 3]) + "," + d[|d| - 3..]
  }

  function RemoveCommas(s: string): string {
    if s == [] then [] else (if s[0] == ',' then [] else [s[0]]) + RemoveCommas(s[1..])
  }

  lemma {:induction false} RemoveCommasAppend(a: string, b: string)
    ensures RemoveCommas(a + b) == RemoveCommas(a) + RemoveCommas(b)
  {
    if a == [] {
      assert a + b == b;
    } else {
      assert (a + b)[0] == a[0];
      assert (a + b)[1..] == a[1..] + b;
      RemoveCommasAppend(a[1..], b);
    }
  }

  lemma {:induction false} RemoveCommasNoop(s: string)
    requires ',' !in s
    ensures RemoveCommas(s) == s
  {
    if s != [] {
      RemoveCommasNoop(s[1..]);
    }
  }

  lemma RemoveCommasComma()
    ensures RemoveCommas([',']) == []
  {
    assert [','][1..] == [];
  }

  lemma RemoveCommasJoin(a: string, b: string)
    requires ',' !in b
    ensures RemoveCommas(a + [','] + b) == RemoveCommas(a) + b
  {
    var c: string := [','];
    var ac := a + c;
    RemoveCommasAppend(a, c);
    RemoveCommasComma();
    assert RemoveCommas(ac) == RemoveCommas(a) by {
      assert RemoveCommas(a) + [] == RemoveCommas(a);
    }
    RemoveCommasAppend(ac, b);
    RemoveCommasNoop(b);
  }

  /** Deleting the separators from a grouped run of digits gives the digits back. */
  lemma {:induction false} Group3Ungroup(d: string)
    requires forall i :: 0 <= i < |d| ==> d[i] != ','
    ensures RemoveCommas(Group3(d)) == d
  {
    if |d| <= 3 {
      RemoveCommasNoop(d);
    } else {
      var p := d[..|d| - 3];
      var l := d[|d| - 3..];
      assert forall i :: 0 <= i < |l| ==> l[i] == d[|d| - 3 + i];
      Group3Ungroup(p);
      RemoveCommasJoin(Group3(p), l);
      assert p + l == d;
    }
  }

  /** In a grouped run of digits, a character is a comma exactly when its distance from the end
      is a multiple of four (so groups after the first have three digits and the first has one
      to three); every other character is a digit. */
  lemma Mod4Shift(a: nat)
    ensures (a + 4) % 4 == a % 4
  {
  }

  lemma {:induction false} Group3Shape(d: string)
    requires IsDigits(d)
    ensures var g := Group3(d);
      && |g| % 4 != 0
      && forall i :: 0 <= i < |g| ==> (g[i] == ',' <==> (|g| - i) % 4 == 0) && (g[i] != ',' ==> IsDigit(g[i]))
  {
    var g := Group3(d);
    if |d| > 3 {
      var p := d[..|d| - 3];
      var l := d[|d| - 3..];
      assert IsDigits(p);
      Group3Shape(p);
      var gp := Group3(p);
      assert g == gp + "," + l;
      assert |g| == |gp| + 4;
      Mod4Shift(|gp|);
      forall i | 0 <= i < |g| ensures (g[i] == ',' <==> (|g| - i) % 4 == 0) && (g[i] != ',' ==> IsDigit(g[i])) {
        if i < |gp| {
          assert g[i] == gp[i];
          Mod4Shift(|gp| - i);
          assert |g| - i == (|gp| - i) + 4;
        } else if i > |gp| {
          assert g[i] == l[i - |gp| - 1];
          assert IsDigit(d[|d| - 3 + (i - |gp| - 1)]);
        }
      }
    }
  }

  /** `f"{v:,}"` for an integer. */
  function FmtInt(v: int): string {
    (if v < 0 then "-" else "") + Group3(NatToString(if v < 0 then -v else v))
  }

  /** Reads back a comma-grouped integer. */
  function ParseGroupedInt(s: string): Option<int> {
    var neg := s != [] && s[0] == '-';
    var mag := RemoveCommas(if neg then s[1..] else s);
    if IsDigits(mag) then Some(if neg then -(DigitsValue(mag) as int) else DigitsValue(mag) as int) else None
  }

  lemma NoCommaInDigits(s: string)
    requires IsDigits(s)
    ensures ',' !in s
  {
    assert forall i :: 0 <= i < |s| ==> s[i] != ',';
  }

  /** The integer format reads back to the integer: deleting the separators gives the plain
      decimal form. */
  lemma FmtIntRoundTrip(v: int)
    ensures ParseGroupedInt(FmtInt(v)) == Some(v)
    ensures RemoveCommas(FmtInt(v)) == (if v < 0 then "-" else "") + NatToString(if v < 0 then -v else v)
  {
    if v < 0 {
      FmtIntNegative(v);
    } else {
      FmtIntNonNegative(v);
    }
  }

  lemma FmtIntNegative(v: int)
    requires v < 0
    ensures ParseGroupedInt(FmtInt(v)) == Some(v)
    ensures RemoveCommas(FmtInt(v)) == "-" + NatToString(-v)
  {
    var n: nat := -v;
    NatToStringSpec(n);
    Group3Ungroup(NatToString(n));
    var g := Group3(NatToString(n));
    assert FmtInt(v) == "-" + g;
    assert ("-" + g)[1..] == g;
    RemoveCommasAppend("-", g);
    assert RemoveCommas("-") == "-";
  }

  lemma FmtIntNonNegative(v: int)
    requires v >= 0
    ensures ParseGroupedInt(FmtInt(v)) == Some(v)
    ensures RemoveCommas(FmtInt(v)) == NatToString(v)
  {
    NatToStringSpec(v);
    Group3Ungroup(NatToString(v));
    var g := Group3(NatToString(v));
    assert FmtInt(v) == g;
    Group3Shape(NatToString(v));
    assert g[0] != '-' by {
      assert g[0] == ',' || IsDigit(g[0]);
    }
  }


  // ---------------------------------------------------------------- Currency

  /** `f"£{pence / 100:,.2f}"` for an amount held as whole pence. */
  function FmtGbp(pence: int): string {
    if pence < 0 then "£-" + PoundsAndPence(-pence) else "£" + PoundsAndPence(pence)
  }

  /** The unsigned part of a `£`-amount: grouped whole pounds, `.`, two digits of pence. */
  function PoundsAndPence(m: nat): string {
    Group3(NatToString(m / 100)) + "." + ZeroPad(m % 100, 2)
  }

  /** Reads back the unsigned part of a `£`-amount: grouped pounds, `.`, two pence digits. */
  function ParsePence(mag: string): Option<nat> {
    if |mag| < 4 || mag[|mag| - 3] != '.' then None
    else
      var whole := RemoveCommas(mag[..|mag| - 3]);
      var frac := mag[|mag| - 2..];
      if IsDigits(whole) && IsDigits(frac) then Some(DigitsValue(whole) * 100 + DigitsValue(frac)) else None
  }

  /** Reads back a `£`-amount with an optional minus sign after the pound sign. */
  function ParseGbp(s: string): Option<int> {
    if |s| < 1 || s[0] != '£' then None
    else if |s| >= 2 && s[1] == '-' then
      match ParsePence(s[2..])
      case Some(v) => Some(-(v as int))
      case None => None
    else
      match ParsePence(s[1..])
      case Some(v) => Some(v as int)
      case None => None
  }

  /** The grouped rendering of `n` starts with a digit and ungroups to `str(n)`. */
  lemma GroupedNat(n: nat)
    ensures var g := Group3(NatToString(n));
      && g != [] && IsDigit(g[0])
      && RemoveCommas(g) == NatToString(n)
      && IsDigits(NatToString(n)) && DigitsValue(NatToString(n)) == n
  {
    NatToStringSpec(n);
    Group3Ungroup(NatToString(n));
    Group3Shape(NatToString(n));
  }

  lemma ParsePenceOf(g: string, f: string)
    requires IsDigits(RemoveCommas(g)) && IsDigits(f) && |f| == 2
    ensures ParsePence(g + "." + f) == Some(DigitsValue(RemoveCommas(g)) * 100 + DigitsValue(f))
  {
    var mag := g + "." + f;
    assert |mag| - 3 == |g|;
    assert mag[..|g|] == g;
    assert mag[|g|] == '.';
    assert mag[|g| + 1..] == f;
  }

  lemma ParsePenceRoundTrip(m: nat)
    ensures ParsePence(PoundsAndPence(m)) == Some(m) && PoundsAndPence(m)[0] != '-'
  {
    var g := Group3(NatToString(m / 100));
    var f := ZeroPad(m % 100, 2);
    GroupedNat(m / 100);
    ZeroPadSpec(m % 100, 2);
    ParsePenceOf(g, f);
    assert (g + "." + f)[0] == g[0];
    assert m == (m / 100) * 100 + m % 100;
  }

  /** The currency format reads back to the amount: `£`, a minus sign for negative amounts,
      grouped whole pounds, `.` and exactly two digits of pence. */
  lemma FmtGbpRoundTrip(pence: int)
    ensures ParseGbp(FmtGbp(pence)) == Some(pence)
    ensures FmtGbp(pence)[0] == '£'
  {
    if pence < 0 {
      FmtGbpNegative(pence);
    } else {
      FmtGbpNonNegative(pence);
    }
  }

  lemma FmtGbpNegative(pence: int)
    requires pence < 0
    ensures ParseGbp(FmtGbp(pence)) == Some(pence)
    ensures FmtGbp(pence)[0] == '£'
  {
    var m: nat := -pence;
    var mag := PoundsAndPence(m);
    assert FmtGbp(pence) == "£-" + mag;
    ParsePenceRoundTrip(m);
    ParseNegativeMag(mag, m);
  }

  /** A minus sign after the pound sign negates the amount that follows. */
  lemma ParseNegativeMag(mag: string, m: nat)
    requires ParsePence(mag) == Some(m)
    ensures ParseGbp("£-" + mag) == Some(-(m as int))
  {
    var s := "£-" + mag;
    assert s[0] == '£' && s[1] == '-' && s[2..] == mag;
  }

  lemma FmtGbpNonNegative(pence: int)
    requires pence >= 0
    ensures ParseGbp(FmtGbp(pence)) == Some(pence)
    ensures FmtGbp(pence)[0] == '£'
  {
    var mag := PoundsAndPence(pence);
    ParsePenceRoundTrip(pence);
    var s := FmtGbp(pence);
    assert s == "£" + mag;
    assert s[1..] == mag;
  }


  // ---------------------------------------------------------------- HTML escaping

  /** The replacement `html.escape(s, quote=True)` makes for one character. */
  function EscapeChar(c: char): string {
    if c == '&' then "&amp;"
    else if c == '<' then "&lt;"
    else if c == '>' then "&gt;"
    else if c == '"' then "&quot;"
    else if c == '\'' then "&#x27;"
    else [c]
  }

  /** `html.escape(s)`: the markup characters `& < > " '` become character references. */
  function HtmlEscape(s: string): string {
    if s == [] then "" else EscapeChar(s[0]) + HtmlEscape(s[1..])
  }

  /** Decodes the five references `html.escape` produces (a partial `html.unescape`). */
  function HtmlUnescape(s: string): string
    decreases |s|
  {
    if s == [] then ""
    else if |s| >= 5 && s[..5] == "&amp;" then "&" + HtmlUnescape(s[5..])
    else if |s| >= 4 && s[..4] == "&lt;" then "<" + HtmlUnescape(s[4..])
    else if |s| >= 4 && s[..4] == "&gt;" then ">" + HtmlUnescape(s[4..])
    else if |s| >= 6 && s[..6] == "&quot;" then "\"" + HtmlUnescape(s[6..])
    else if |s| >= 6 && s[..6] == "&#x27;" then "'" + HtmlUnescape(s[6..])
    else [s[0]] + HtmlUnescape(s[1..])
  }

  /** Number of occurrences of `c` in `s`. */
  function CountChar(s: string, c: char): nat {
    if s == [] then 0 else (if s[0] == c then 1 else 0) + CountChar(s[1..], c)
  }

  lemma {:induction false} CountCharAppend(a: string, b: string, c: char)
    ensures CountChar(a + b, c) == CountChar(a, c) + CountChar(b, c)
  {
    if a == [] {
      assert a + b == b;
    } else {
      assert (a + b)[0] == a[0];
      assert (a + b)[1..] == a[1..] + b;
      CountCharAppend(a[1..], b, c);
    }
  }

  lemma {:induction false} CountCharAbsent(s: string, c: char)
    requires forall i :: 0 <= i < |s| ==> s[i] != c
    ensures CountChar(s, c) == 0
  {
    if s != [] {
      CountCharAbsent(s[1..], c);
    }
  }

  /** The characters that open or close markup or an attribute value. */
  predicate IsMarkup(c: char) {
    c == '<' || c == '>' || c == '"' || c == '\''
  }

  lemma EscapeCharNoMarkup(c: char)
    ensures forall i :: 0 <= i < |EscapeChar(c)| ==> !IsMarkup(EscapeChar(c)[i])
  {
  }

  /** Escaped text contains no markup character, so it can neither open a tag nor end an
      attribute value. */
  lemma {:induction false} HtmlEscapeNoMarkup(s: string)
    ensures forall i :: 0 <= i < |HtmlEscape(s)| ==> !IsMarkup(HtmlEscape(s)[i])
    ensures CountChar(HtmlEscape(s), '<') == 0
  {
    if s != [] {
      HtmlEscapeNoMarkup(s[1..]);
      EscapeCharNoMarkup(s[0]);
      var a := EscapeChar(s[0]);
      var b := HtmlEscape(s[1..]);
      assert HtmlEscape(s) == a + b;
      forall i | 0 <= i < |a + b| ensures !IsMarkup((a + b)[i]) {
        if i < |a| {
          assert (a + b)[i] == a[i];
        } else {
          assert (a + b)[i] == b[i - |a|];
        }
      }
    }
    CountCharAbsent(HtmlEscape(s), '<');
  }

  lemma UnescapeAmp(rest: string)
    ensures HtmlUnescape("&amp;" + rest) == "&" + HtmlUnescape(rest)
  {
    var e := "&amp;" + rest;
    assert e[..5] == "&amp;" && e[5..] == rest;
  }

  lemma UnescapeLt(rest: string)
    ensures HtmlUnescape("&lt;" + rest) == "<" + HtmlUnescape(rest)
  {
    var e := "&lt;" + rest;
    assert e[1] == 'l';
    assert e[..4] == "&lt;" && e[4..] == rest;
  }

  lemma UnescapeGt(rest: string)
    ensures HtmlUnescape("&gt;" + rest) == ">" + HtmlUnescape(rest)
  {
    var e := "&gt;" + rest;
    assert e[1] == 'g';
    assert e[..4] == "&gt;" && e[4..] == rest;
  }

  lemma UnescapeQuot(rest: string)
    ensures HtmlUnescape("&quot;" + rest) == "\"" + HtmlUnescape(rest)
  {
    var e := "&quot;" + rest;
    assert e[1] == 'q';
    assert e[..6] == "&quot;" && e[6..] == rest;
  }

  lemma UnescapeApos(rest: string)
    ensures HtmlUnescape("&#x27;" + rest) == "'" + HtmlUnescape(rest)
  {
    var e := "&#x27;" + rest;
    assert e[1] == '#';
    assert e[..6] == "&#x27;" && e[6..] == rest;
  }

  lemma UnescapeOther(c: char, rest: string)
    requires c != '&'
    ensures HtmlUnescape([c] + rest) == [c] + HtmlUnescape(rest)
  {
    var e := [c] + rest;
    assert e[0] == c && e[1..] == rest;
    assert |e| >= 4 ==> e[..4][0] == c && e[..4] != "&lt;" && e[..4] != "&gt;";
    assert |e| >= 5 ==> e[..5][0] == c && e[..5] != "&amp;";
    assert |e| >= 6 ==> e[..6][0] == c && e[..6] != "&quot;" && e[..6] != "&#x27;";
  }

  lemma UnescapeStep(c: char, rest: string)
    ensures HtmlUnescape(EscapeChar(c) + rest) == [c] + HtmlUnescape(rest)
  {
    if c == '&' {
      UnescapeAmp(rest);
    } else if c == '<' {
      UnescapeLt(rest);
    } else if c == '>' {
      UnescapeGt(rest);
    } else if c == '"' {
      UnescapeQuot(rest);
    } else if c == '\'' {
      UnescapeApos(rest);
    } else {
      UnescapeOther(c, rest);
    }
  }

  /** Unescaping undoes escaping: no information is lost by `html.escape`. */
  lemma {:induction false} HtmlEscapeRoundTrip(s: string)
    ensures HtmlUnescape(HtmlEscape(s)) == s
  {
    if s != [] {
      HtmlEscapeRoundTrip(s[1..]);
      UnescapeStep(s[0], HtmlEscape(s[1..]));
    }
  }

  // ---------------------------------------------------------------- Separators

  /** `sep.join(parts)`. */
  function Join(parts: seq<string>, sep: char): string {
    if parts == [] then ""
    else if |parts| == 1 then parts[0]
    else parts[0] + [sep] + Join(parts[1..], sep)
  }

  /** `s.split(sep)`. */
  function Split(s: string, sep: char): seq<string>
    decreases |s|
  {
    if sep in s then
      var i := IndexOf(s, sep);
      [s[..i]] + Split(s[i + 1..], sep)
    else [s]
  }

  /** Splitting a join of separator-free parts gives the parts back. */
  lemma {:induction false} SplitJoin(parts: seq<string>, sep: char)
    requires parts != []
    requires forall k :: 0 <= k < |parts| ==> sep !in parts[k]
    ensures Split(Join(parts, sep), sep) == parts
  {
    if |parts| > 1 {
      var s := Join(parts, sep);
      var p0 := parts[0];
      assert s == p0 + [sep] + Join(parts[1..], sep);
      assert s[|p0|] == sep;
      assert s[..|p0|] == p0;
      var i := IndexOf(s, sep);
      assert forall k :: 0 <= k < |p0| ==> s[k] == p0[k] && s[k] != sep;
      assert i == |p0|;
      assert s[i + 1..] == Join(parts[1..], sep);
      SplitJoin(parts[1..], sep);
    }
  }

  /** Joins are injective on separator-free parts. */
  lemma JoinInjective(a: seq<string>, b: seq<string>, sep: char)
    requires a != [] && b != []
    requires forall k :: 0 <= k < |a| ==> sep !in a[k]
    requires forall k :: 0 <= k < |b| ==> sep !in b[k]
    requires Join(a, sep) == Join(b, sep)
    ensures a == b
  {
    SplitJoin(a, sep);
    SplitJoin(b, sep);
  }
}
