/** Slice filenames: zero-padded decimal indexes, portable-name rules, and the facts that make the
    names of one package distinct and sorted in Slice order. A `char` is one Unicode scalar value,
    as in a Rust string; byte lengths are UTF-8 lengths. */
module SliceNames {
  const MAX_FILENAME_BYTES: nat := 200
  const MANIFEST_SUFFIX: string := ".cake.json"
  const SLICE_SUFFIX: string := ".slice"
  const FORBIDDEN: string := "/\\:<>\"|?*"

  function DigitChar(d: nat): char
    requires d < 10
  {
    "0123456789"[d]
  }

  function Decimal(n: nat): string {
    if n < 10 then [DigitChar(n)] else Decimal(n / 10) + [DigitChar(n % 10)]
  }

  function Zeros(count: nat): string {
    seq(count, _ => '0')
  }

  /** `{:0width$}` in the native format, `padStart(width, '0')` in the browser. */
  function PadStart(text: string, width: nat): string {
    if |text| >= width then text else Zeros(width - |text|) + text
  }

  function SliceIndexWidth(count: nat): nat {
    var digits := |Decimal(if count > 1 then count else 1)|;
    if digits > 3 then digits else 3
  }

  function SliceFilename(original: string, index: nat, width: nat): string {
    original + "." + PadStart(Decimal(index), width) + SLICE_SUFFIX
  }

  function ManifestFilename(original: string): string {
    original + MANIFEST_SUFFIX
  }

  function Power10(w: nat): nat {
    if w == 0 then 1 else 10 * Power10(w - 1)
  }

  /** The value a string of decimal digits denotes; the partner of `Decimal`. */
  function DigitsValue(text: string): nat {
    if text == "" then 0
    else
      var c := text[|text| - 1];
      10 * DigitsValue(text[..|text| - 1]) + (if '0' <= c <= '9' then (c - '0') as nat else 0)
  }

  lemma DigitCharValue(d: nat)
    requires d < 10
    ensures '0' <= DigitChar(d) <= '9' && (DigitChar(d) - '0') as nat == d
  {
    assert d == 0 || d == 1 || d == 2 || d == 3 || d == 4 || d == 5 || d == 6 || d == 7 || d == 8 || d == 9;
  }

  lemma {:induction false} DecimalValue(n: nat)
    ensures DigitsValue(Decimal(n)) == n
    ensures forall k :: 0 <= k < |Decimal(n)| ==> '0' <= Decimal(n)[k] <= '9'
  {
    DigitCharValue(n % 10);
    if n < 10 {
      assert Decimal(n)[..0] == "";
    } else {
      DecimalValue(n / 10);
      assert Decimal(n)[..|Decimal(n)| - 1] == Decimal(n / 10);
    }
  }

  /** Decimal notation has at most `w` digits exactly for the numbers below 10^w. */
  lemma {:induction false} DecimalLength(n: nat, w: nat)
    requires w >= 1
    ensures |Decimal(n)| <= w <==> n < Power10(w)
  {
    if n >= 10 {
      if w == 1 {
        assert |Decimal(n / 10)| >= 1;
      } else {
        DecimalLength(n / 10, w - 1);
      }
    } else {
      PowerPositive(w - 1);
    }
  }

  lemma {:induction false} PowerPositive(w: nat)
    ensures Power10(w) >= 1
  {
    if w > 0 {
      PowerPositive(w - 1);
    }
  }

  lemma {:induction false} ZerosValue(count: nat, text: string)
    ensures DigitsValue(Zeros(count) + text) == DigitsValue(text)
    decreases count + |text|
  {
    var padded := Zeros(count) + text;
    if text != "" {
      assert padded[..|padded| - 1] == Zeros(count) + text[..|text| - 1];
      ZerosValue(count, text[..|text| - 1]);
    } else if count > 0 {
      assert padded[..|padded| - 1] == Zeros(count - 1) + "";
      ZerosValue(count - 1, "");
    } else {
      assert padded == "";
    }
  }

  lemma PaddedValue(n: nat, width: nat)
    ensures DigitsValue(PadStart(Decimal(n), width)) == n
    ensures |Decimal(n)| <= width ==> |PadStart(Decimal(n), width)| == width
    ensures forall k :: 0 <= k < |PadStart(Decimal(n), width)| ==> '0' <= PadStart(Decimal(n), width)[k] <= '9'
  {
    DecimalValue(n);
    if |Decimal(n)| < width {
      ZerosValue(width - |Decimal(n)|, Decimal(n));
    }
  }

  /** Distinct indexes have distinct names, whatever the width and even with different widths. */
  lemma SliceFilenamesInjective(original: string, i: nat, wi: nat, j: nat, wj: nat)
    requires SliceFilename(original, i, wi) == SliceFilename(original, j, wj)
    ensures i == j
  {
    var a, b := PadStart(Decimal(i), wi), PadStart(Decimal(j), wj);
    var prefix := original + ".";
    assert SliceFilename(original, i, wi) == prefix + a + SLICE_SUFFIX;
    assert SliceFilename(original, j, wj) == prefix + b + SLICE_SUFFIX;
    assert |a| == |b|;
    assert a == (prefix + a + SLICE_SUFFIX)[|prefix|..|prefix| + |a|];
    assert b == (prefix + b + SLICE_SUFFIX)[|prefix|..|prefix| + |b|];
    PaddedValue(i, wi);
    PaddedValue(j, wj);
  }

  /** A Slice name with its index written as `digits`. */
  function NameWith(original: string, digits: string): string {
    original + "." + digits + ".slice"
  }

  /** The middle of a Slice name is the one digit string that denotes the index and has the least length, at
      least three, with which every index of the package can be written. */
  lemma SliceNameExactly(original: string, index: nat, count: nat, digits: string)
    requires 1 <= index <= count && AllDigits(digits)
    ensures SliceFilename(original, index, SliceIndexWidth(count)) == NameWith(original, digits) <==>
            && DigitsValue(digits) == index && |digits| >= 3
            && count < Power10(|digits|) && (|digits| == 3 || Power10(|digits| - 1) <= count)
  {
    hide PadStart, Decimal, SliceIndexWidth, Power10, NameWith, SliceFilename, AllDigits, DigitsValue;
    PaddedExactly(index, count, digits);
    WidthIsLeast(count, |digits|);
    var padded := PadStart(Decimal(index), SliceIndexWidth(count));
    NameIsPadded(original, index, SliceIndexWidth(count));
    if NameWith(original, padded) == NameWith(original, digits) {
      SameMiddle(original, padded, digits);
    }
  }

  lemma PaddedExactly(index: nat, count: nat, digits: string)
    requires 1 <= index <= count && AllDigits(digits)
    ensures PadStart(Decimal(index), SliceIndexWidth(count)) == digits <==> DigitsValue(digits) == index && |digits| == SliceIndexWidth(count)
  {
    IndexFitsWidth(index, count);
    PaddedValue(index, SliceIndexWidth(count));
    hide PadStart, Decimal, SliceIndexWidth, DigitsValue;
    if DigitsValue(digits) == index && |digits| == SliceIndexWidth(count) {
      SameValueSameDigits(PadStart(Decimal(index), SliceIndexWidth(count)), digits);
    }
  }

  lemma NameIsPadded(original: string, index: nat, width: nat)
    ensures SliceFilename(original, index, width) == NameWith(original, PadStart(Decimal(index), width))
  {
    hide PadStart, Decimal;
  }

  lemma SameMiddle(original: string, a: string, b: string)
    requires NameWith(original, a) == NameWith(original, b)
    ensures a == b
  {
    var x, y, start := NameWith(original, a), NameWith(original, b), |original| + 1;
    assert |x| == start + |a| + 6 && |y| == start + |b| + 6;
    assert a == x[start..start + |a|];
    assert b == y[start..start + |b|];
  }

  lemma WidthIsLeast(count: nat, width: nat)
    requires count >= 1
    ensures SliceIndexWidth(count) == width <==> width >= 3 && count < Power10(width) && (width == 3 || Power10(width - 1) <= count)
  {
    if width >= 3 {
      DecimalLength(count, width);
      DecimalLength(count, width - 1);
    }
    hide Decimal, Power10;
  }

  /** Strict lexicographic order on strings, by code point. */
  ghost predicate LexLess(a: string, b: string) {
    exists k: nat :: k <= |a| && k < |b| && a[..k] == b[..k] && (k == |a| || a[k] < b[k])
  }

  ghost predicate AllDigits(text: string) {
    forall k :: 0 <= k < |text| ==> '0' <= text[k] <= '9'
  }

  lemma {:induction false} ValueBelowPower(text: string)
    requires AllDigits(text)
    ensures DigitsValue(text) < Power10(|text|)
  {
    if text != "" {
      ValueBelowPower(text[..|text| - 1]);
    }
  }

  lemma {:induction false} SmallerValueSortsFirst(a: string, b: string) returns (k: nat)
    requires AllDigits(a) && AllDigits(b) && |a| == |b| && DigitsValue(a) < DigitsValue(b)
    ensures k < |a| && a[..k] == b[..k] && a[k] < b[k]
    decreases |a|
  {
    var last := |a| - 1;
    if DigitsValue(a[..last]) == DigitsValue(b[..last]) {
      SameValueSameDigits(a[..last], b[..last]);
      return last;
    }
    k := SmallerValueSortsFirst(a[..last], b[..last]);
    assert a[..last][..k] == a[..k] && b[..last][..k] == b[..k];
  }

  lemma {:induction false} SameValueSameDigits(a: string, b: string)
    requires AllDigits(a) && AllDigits(b) && |a| == |b| && DigitsValue(a) == DigitsValue(b)
    ensures a == b
  {
    if a != "" {
      var last := |a| - 1;
      SameValueSameDigits(a[..last], b[..last]);
      assert a == a[..last] + [a[last]] && b == b[..last] + [b[last]];
    }
  }

  lemma {:induction false} DecimalMonotone(i: nat, j: nat)
    requires i <= j
    ensures |Decimal(i)| <= |Decimal(j)|
  {
    if j >= 10 && i >= 10 {
      DecimalMonotone(i / 10, j / 10);
    }
  }

  lemma IndexFitsWidth(index: nat, count: nat)
    requires 1 <= index <= count
    ensures |Decimal(index)| <= SliceIndexWidth(count)
  {
    DecimalMonotone(index, count);
  }

  /** In one package the names sort in Slice order. */
  lemma SliceFilenamesSortInIndexOrder(original: string, count: nat, i: nat, j: nat)
    requires 1 <= i < j <= count
    ensures LexLess(SliceFilename(original, i, SliceIndexWidth(count)),
                    SliceFilename(original, j, SliceIndexWidth(count)))
  {
    var w := SliceIndexWidth(count);
    IndexFitsWidth(i, count);
    IndexFitsWidth(j, count);
    PaddedValue(i, w);
    PaddedValue(j, w);
    var a, b := PadStart(Decimal(i), w), PadStart(Decimal(j), w);
    var k := SmallerValueSortsFirst(a, b);
    hide PadStart, Decimal, SliceIndexWidth, LexLess;
    SurroundedLess(original + ".", a, b, SLICE_SUFFIX, k);
    assert SliceFilename(original, i, w) == original + "." + a + SLICE_SUFFIX;
    assert SliceFilename(original, j, w) == original + "." + b + SLICE_SUFFIX;
  }

  lemma SurroundedLess(prefix: string, a: string, b: string, suffix: string, k: nat)
    requires k < |a| && k < |b| && a[..k] == b[..k] && a[k] < b[k]
    ensures LexLess(prefix + a + suffix, prefix + b + suffix)
  {
    var left, right := prefix + a + suffix, prefix + b + suffix;
    assert left[..|prefix| + k] == prefix + a[..k];
    assert right[..|prefix| + k] == prefix + b[..k];
    assert left[|prefix| + k] < right[|prefix| + k];
  }

  /** A Slice name is never the Manifest name of the same original. */
  lemma SliceIsNotManifest(original: string, index: nat, width: nat)
    ensures SliceFilename(original, index, width) != ManifestFilename(original)
  {
    var name := SliceFilename(original, index, width);
    assert name[|name| - 1] == 'e' && ManifestFilename(original)[|ManifestFilename(original)| - 1] == 'n';
  }

  function Utf8Length(text: string): nat {
    if text == "" then 0 else Utf8Length(text[..|text| - 1]) + CharBytes(text[|text| - 1])
  }

  function CharBytes(c: char): nat {
    if (c as int) < 0x80 then 1 else if (c as int) < 0x800 then 2 else if (c as int) < 0x1_0000 then 3 else 4
  }

  predicate IsControl(c: char) {
    (c as int) < 0x20 || 0x7f <= (c as int) < 0xa0
  }

  predicate IsWhitespace(c: char) {
    var n := c as int;
    || 9 <= n <= 13 || n == 0x20 || n == 0x85 || n == 0xa0 || n == 0x1680 || 0x2000 <= n <= 0x200a
    || n == 0x2028 || n == 0x2029 || n == 0x202f || n == 0x205f || n == 0x3000
  }

  /** The text before the first full stop. */
  function Basename(name: string): string {
    if name == "" || name[0] == '.' then "" else [name[0]] + Basename(name[1..])
  }

  /** The characters of the reserved names have no upper-case preimage outside ASCII. */
  function UpperCase(text: string): string {
    seq(|text|, i requires 0 <= i < |text| => if 'a' <= text[i] <= 'z' then text[i] - 'a' + 'A' else text[i])
  }

  predicate IsWindowsReservedName(name: string) {
    var upper := UpperCase(Basename(name));
    || upper in ["CON", "PRN", "AUX", "NUL", "CLOCK$"]
    || (&& |upper| == 4 && upper[..3] in ["COM", "LPT"]
        && (upper[3] == '\U{b9}' || upper[3] == '\U{b2}' || upper[3] == '\U{b3}' || '1' <= upper[3] <= '9'))
  }

  /** The rules of `validate_portable_filename` other than the length limit. */
  predicate CleanName(name: string) {
    && name != "" && name != "." && name != ".."
    && (forall c :: c in name ==> c !in FORBIDDEN && !IsControl(c))
    && !IsWhitespace(name[0])
    && name[|name| - 1] != '.' && !IsWhitespace(name[|name| - 1])
    && !IsWindowsReservedName(name)
  }

  predicate PortableFilename(name: string) {
    Utf8Length(name) <= MAX_FILENAME_BYTES && CleanName(name)
  }

  // The names that Windows reserves, apart from the numbered ports.
  const DEVICES: seq<string> := ["CON", "PRN", "AUX", "NUL", "CLOCK$"]

  predicate IsPort(name: string) {
    exists number :: number in "123456789\U{b9}\U{b2}\U{b3}" && (name == "COM" + [number] || name == "LPT" + [number])
  }

  /** `name` begins with `device` in any mix of cases, and ends there or goes on with a full stop. */
  predicate NamesDevice(name: string, device: string) {
    && |device| <= |name| && (|name| == |device| || name[|device|] == '.')
    && forall k :: 0 <= k < |device| ==>
         name[k] == device[k] || ('A' <= device[k] <= 'Z' && name[k] == device[k] - 'A' + 'a')
  }

  /** A name is reserved exactly when it names a device or a numbered port, whatever its extension. */
  lemma ReservedExactly(name: string)
    ensures IsWindowsReservedName(name) <==>
            exists device :: (device in DEVICES || IsPort(device)) && NamesDevice(name, device)
  {
    BasenameEnds(name);
    var upper := UpperCase(Basename(name));
    ReservedUpper(upper);
    UpperNames(name);
    if device :| (device in DEVICES || IsPort(device)) && NamesDevice(name, device) {
      DeviceIsUpper(name, device);
    }
    hide IsPort, NamesDevice, UpperCase, Basename;
  }

  lemma UpperNames(name: string)
    requires var base := Basename(name); |base| <= |name| && base == name[..|base|] && (|base| == |name| || name[|base|] == '.')
    ensures NamesDevice(name, UpperCase(Basename(name)))
  {
    hide Basename;
  }

  lemma DeviceIsUpper(name: string, device: string)
    requires (device in DEVICES || IsPort(device)) && NamesDevice(name, device)
    ensures UpperCase(Basename(name)) == device
  {
    DeviceLetters(device);
    hide IsPort;
    BasenameUntil(name, |device|);
    hide Basename;
  }

  lemma {:induction false} BasenameEnds(name: string)
    ensures |Basename(name)| <= |name| && Basename(name) == name[..|Basename(name)|] && '.' !in Basename(name)
    ensures |Basename(name)| == |name| || name[|Basename(name)|] == '.'
  {
    if name != "" && name[0] != '.' {
      BasenameEnds(name[1..]);
    }
  }

  lemma {:induction false} BasenameUntil(name: string, n: nat)
    requires n <= |name| && (n == |name| || name[n] == '.') && forall k :: 0 <= k < n ==> name[k] != '.'
    ensures Basename(name) == name[..n]
  {
    if n > 0 {
      BasenameUntil(name[1..], n - 1);
      assert name[..n] == [name[0]] + name[1..][..n - 1];
    }
  }

  lemma ReservedUpper(upper: string)
    ensures upper in DEVICES || IsPort(upper) <==>
            || upper in ["CON", "PRN", "AUX", "NUL", "CLOCK$"]
            || (&& |upper| == 4 && upper[..3] in ["COM", "LPT"]
                && (upper[3] == '\U{b9}' || upper[3] == '\U{b2}' || upper[3] == '\U{b3}' || '1' <= upper[3] <= '9'))
  {
    var ports := "123456789\U{b9}\U{b2}\U{b3}";
    assert forall c: char :: c in ports <==> c == '\U{b9}' || c == '\U{b2}' || c == '\U{b3}' || '1' <= c <= '9' by {
      forall c: char
        ensures c in ports <==> c == '\U{b9}' || c == '\U{b2}' || c == '\U{b3}' || '1' <= c <= '9'
      {
        if '1' <= c <= '9' { assert ports[(c - '1') as int] == c; }
        assert ports[9] == '\U{b9}' && ports[10] == '\U{b2}' && ports[11] == '\U{b3}';
      }
    }
    if |upper| == 4 && upper[..3] in ["COM", "LPT"] && upper[3] in ports {
      assert upper == upper[..3] + [upper[3]];
    }
  }

  lemma DeviceLetters(device: string)
    requires device in DEVICES || IsPort(device)
    ensures forall k :: 0 <= k < |device| ==> device[k] != '.' && !('a' <= device[k] <= 'z')
  {
    if IsPort(device) {
      ReservedUpper(device);
    }
  }

  // The twenty-five white-space characters of Unicode.
  const CONTROL_SPACES: string := "\t\n\U{b}\U{c}\r"
  const WIDE_SPACES: string := "\U{2000}\U{2001}\U{2002}\U{2003}\U{2004}\U{2005}\U{2006}\U{2007}\U{2008}\U{2009}\U{200a}"
  const OTHER_SPACES: string := " \U{85}\U{a0}\U{1680}\U{2028}\U{2029}\U{202f}\U{205f}\U{3000}"
  const SPACES: string := CONTROL_SPACES + WIDE_SPACES + OTHER_SPACES

  lemma SpacesExactly(c: char)
    ensures c in SPACES <==> IsWhitespace(c)
  {
    ControlSpaces(c);
    WideSpaces(c);
    OtherSpaces(c);
    hide CONTROL_SPACES, WIDE_SPACES, OTHER_SPACES;
  }

  lemma ControlSpaces(c: char)
    ensures c in CONTROL_SPACES <==> 9 <= c as int <= 13
  {
    if 9 <= c as int <= 13 {
      assert CONTROL_SPACES[c as int - 9] == c;
    }
  }

  lemma WideSpaces(c: char)
    ensures c in WIDE_SPACES <==> 0x2000 <= c as int <= 0x200a
  {
    if 0x2000 <= c as int <= 0x200a {
      assert WIDE_SPACES[c as int - 0x2000] == c;
    }
  }

  lemma OtherSpaces(c: char)
    ensures c in OTHER_SPACES <==> c as int in {0x20, 0x85, 0xa0, 0x1680, 0x2028, 0x2029, 0x202f, 0x205f, 0x3000}
  {
    var s := OTHER_SPACES;
    assert s[0] == ' ' && s[1] == '\U{85}' && s[2] == '\U{a0}' && s[3] == '\U{1680}' && s[4] == '\U{2028}';
    assert s[5] == '\U{2029}' && s[6] == '\U{202f}' && s[7] == '\U{205f}' && s[8] == '\U{3000}';
  }

  /** The portable names: at most 200 bytes, no separator, no other forbidden or control character, no white
      space at either end, no full stop at the end, and no device. */
  lemma PortableExactly(name: string)
    ensures PortableFilename(name) <==>
            && name != "" && Utf8Length(name) <= 200
            && (forall k :: 0 <= k < |name| ==> name[k] !in "/\\:<>\"|?*" && name[k] >= ' ' && !('\U{7f}' <= name[k] <= '\U{9f}'))
            && name[0] !in SPACES && name[|name| - 1] !in SPACES && name[|name| - 1] != '.'
            && !exists device :: (device in DEVICES || IsPort(device)) && NamesDevice(name, device)
  {
    hide Utf8Length, IsWindowsReservedName, NamesDevice, IsPort;
    ReservedExactly(name);
    if name != "" {
      SpacesExactly(name[0]);
      SpacesExactly(name[|name| - 1]);
    }
    hide IsWhitespace;
    forall k | 0 <= k < |name|
      ensures name[k] in name
      ensures IsControl(name[k]) <==> name[k] < ' ' || '\U{7f}' <= name[k] <= '\U{9f}'
    {
    }
    assert forall c :: c in name ==> exists k :: 0 <= k < |name| && name[k] == c;
    hide IsControl;
  }

  lemma {:induction false} Utf8Append(a: string, b: string)
    ensures Utf8Length(a + b) == Utf8Length(a) + Utf8Length(b)
  {
    if b == "" {
      assert a + b == a;
    } else {
      Utf8Append(a, b[..|b| - 1]);
      assert (a + b)[..|a + b| - 1] == a + b[..|b| - 1];
    }
  }

  lemma {:induction false} Utf8Ascii(text: string)
    requires forall c :: c in text ==> (c as int) < 0x80
    ensures Utf8Length(text) == |text|
  {
    if text != "" {
      var last := |text| - 1;
      assert text[last] in text;
      assert forall c :: c in text[..last] ==> c in text;
      Utf8Ascii(text[..last]);
    }
  }

  lemma {:induction false} BasenameOfDotted(name: string, suffix: string)
    requires suffix != "" && suffix[0] == '.'
    ensures Basename(name + suffix) == Basename(name)
  {
    if name == "" {
      assert name + suffix == suffix;
    } else if name[0] != '.' {
      BasenameOfDotted(name[1..], suffix);
      assert (name + suffix)[1..] == name[1..] + suffix;
    }
  }

  lemma CleanWithSuffix(name: string, suffix: string)
    requires CleanName(name)
    requires |suffix| >= 2 && suffix[0] == '.'
    requires forall c :: c in suffix ==> c == '.' || '0' <= c <= '9' || 'a' <= c <= 'z'
    requires suffix[|suffix| - 1] != '.'
    ensures CleanName(name + suffix)
    ensures Utf8Length(name + suffix) == Utf8Length(name) + |suffix|
  {
    Utf8Append(name, suffix);
    Utf8Ascii(suffix);
    BasenameOfDotted(name, suffix);
    var joined := name + suffix;
    forall c | c in joined
      ensures c !in FORBIDDEN && !IsControl(c)
    {
      assert c in name || c in suffix;
    }
    assert suffix[|suffix| - 1] in suffix;
    assert joined[0] == name[0] && joined[|joined| - 1] == suffix[|suffix| - 1];
    assert joined != "." && joined != "..";
  }

  /** For a portable original the derived names are portable exactly when they fit 200 bytes: the
      Manifest adds ten bytes, a Slice seven and the index width. */
  lemma DerivedNamesPortable(original: string, count: nat, index: nat)
    requires PortableFilename(original)
    requires 1 <= index <= count
    ensures PortableFilename(ManifestFilename(original)) <==> Utf8Length(original) + 10 <= MAX_FILENAME_BYTES
    ensures PortableFilename(SliceFilename(original, index, SliceIndexWidth(count)))
        <==> Utf8Length(original) + 7 + SliceIndexWidth(count) <= MAX_FILENAME_BYTES
  {
    hide CleanName, Utf8Length, PadStart, Decimal, SliceIndexWidth;
    var width := SliceIndexWidth(count);
    CleanWithSuffix(original, MANIFEST_SUFFIX);
    var suffix := "." + PadStart(Decimal(index), width) + SLICE_SUFFIX;
    assert SliceFilename(original, index, width) == original + suffix;
    IndexSuffixShape(count, index);
    CleanWithSuffix(original, suffix);
  }

  lemma IndexSuffixShape(count: nat, index: nat)
    requires 1 <= index <= count
    ensures var suffix := "." + PadStart(Decimal(index), SliceIndexWidth(count)) + SLICE_SUFFIX;
            && |suffix| == 7 + SliceIndexWidth(count)
            && forall c :: c in suffix ==> c == '.' || '0' <= c <= '9' || 'a' <= c <= 'z'
  {
    IndexFitsWidth(index, count);
    PaddedValue(index, SliceIndexWidth(count));
    hide PadStart, Decimal, SliceIndexWidth;
  }
}
