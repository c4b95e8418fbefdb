/** Python's `int(s)` on a string and `str(n)` on an integer, the two
    conversions the settings store, the query parameter and the selector
    labels go through. */
module PyInt {
  import opened Wrappers

  /** The ASCII characters `int()` strips: the six C whitespace characters
      and the four separators 0x1C-0x1F. */
  predicate IsSpace(c: char) {
    c == ' ' || c == '\t' || c == '\n' || c == '\r' || c == '\U{B}' || c == '\U{C}' ||
    ('\U{1C}' <= c <= '\U{1F}')
  }

  predicate IsDigit(c: char) {
    '0' <= c <= '9'
  }

  predicate AllDigits(s: string) {
    forall i :: 0 <= i < |s| ==> IsDigit(s[i])
  }

  /** `s` without its leading whitespace. */
  function TrimStart(s: string): (r: string)
    ensures |r| <= |s| && r == s[|s| - |r|..]
    ensures r != [] ==> !IsSpace(r[0])
    ensures forall i :: 0 <= i < |s| - |r| ==> IsSpace(s[i])
  {
    if s != [] && IsSpace(s[0]) then TrimStart(s[1..]) else s
  }

  /** `s` without its trailing whitespace. */
  function TrimEnd(s: string): (r: string)
    ensures |r| <= |s| && r == s[..|r|]
    ensures r != [] ==> !IsSpace(r[|r| - 1])
    ensures forall i :: |r| <= i < |s| ==> IsSpace(s[i])
  {
    if s != [] && IsSpace(s[|s| - 1]) then TrimEnd(s[..|s| - 1]) else s
  }

  /** Python's `str.strip()` for ASCII whitespace. */
  function Strip(s: string): string {
    TrimEnd(TrimStart(s))
  }

  function DigitValue(c: char): nat
    requires IsDigit(c)
  {
    (c as int) - ('0' as int)
  }

  function DigitChar(d: nat): (c: char)
    requires d < 10
    ensures IsDigit(c) && DigitValue(c) == d
  {
    (('0' as int) + d) as char
  }

  /** The number a string of decimal digits denotes, most significant first. */
  function DigitsValue(s: string): nat
    requires AllDigits(s)
  {
    if s == [] then 0 else 10 * DigitsValue(s[..|s| - 1]) + DigitValue(s[|s| - 1])
  }

  /** `int(s)` for a string: surrounding whitespace, an optional sign and at
      least one decimal digit; anything else raises ValueError (None here). */
  function ParseInt(s: string): (r: Option<int>)
    ensures r.Some? ==> Strip(s) != []
  {
    var t := Strip(s);
    if t == [] then None
    else if t[0] == '-' || t[0] == '+' then
      var body := t[1..];
      if body != [] && AllDigits(body) then
        var v: int := DigitsValue(body);
        Some(if t[0] == '-' then -v else v)
      else None
    else if AllDigits(t) then Some(DigitsValue(t))
    else None
  }

  /** `str(n)` for a non-negative integer: its decimal digits, no leading zero. */
  function ShowNat(n: nat): (r: string)
    ensures r != [] && AllDigits(r)
    ensures |r| > 1 ==> r[0] != '0'
  {
    if n < 10 then [DigitChar(n)] else ShowNat(n / 10) + [DigitChar(n % 10)]
  }

  /** `str(n)` for any integer. */
  function Show(n: int): (r: string)
    ensures r != [] && (forall i :: 0 <= i < |r| ==> IsDigit(r[i]) || (i == 0 && r[i] == '-'))
  {
    if n < 0 then "-" + ShowNat(-n) else ShowNat(n)
  }

  lemma {:induction false} ShowNatValue(n: nat)
    ensures DigitsValue(ShowNat(n)) == n
  {
    if n >= 10 {
      ShowNatValue(n / 10);
      var s := ShowNat(n);
      assert s[..|s| - 1] == ShowNat(n / 10);
    }
  }

  lemma StripNoSpace(s: string)
    requires s != [] && !IsSpace(s[0]) && !IsSpace(s[|s| - 1])
    ensures Strip(s) == s
  {
  }

  /** Text that starts with neither a digit, a sign nor whitespace is not an
      integer. */
  lemma ParseIntRejects(s: string)
    requires s != [] && !IsSpace(s[0]) && !IsSpace(s[|s| - 1])
    requires !IsDigit(s[0]) && s[0] != '-' && s[0] != '+'
    ensures ParseInt(s) == None
  {
    StripNoSpace(s);
    assert !AllDigits(s) by {
      assert !IsDigit(s[0]);
    }
  }

  /** A run of digits reads as its decimal value. */
  lemma ParseDigits(d: string)
    requires d != [] && AllDigits(d)
    ensures ParseInt(d) == Some(DigitsValue(d))
  {
    assert IsDigit(d[0]) && IsDigit(d[|d| - 1]);
    StripNoSpace(d);
  }

  /** A minus sign before a run of digits negates its value. */
  lemma ParseNegDigits(s: string)
    requires |s| >= 2 && s[0] == '-' && AllDigits(s[1..])
    ensures ParseInt(s) == Some(-(DigitsValue(s[1..]) as int))
  {
    assert s[|s| - 1] == s[1..][|s| - 2];
    StripNoSpace(s);
  }

  lemma ParseShowNegative(n: int)
    requires n < 0
    ensures ParseInt(Show(n)) == Some(n)
  {
    var s := Show(n);
    var d := ShowNat(-n);
    assert s[1..] == d;
    ShowNatValue(-n);
    assert DigitsValue(s[1..]) == -n;
    ParseNegDigits(s);
  }

  lemma ParseShowNatural(n: nat)
    ensures ParseInt(Show(n)) == Some(n)
  {
    ShowNatValue(n);
    ParseDigits(ShowNat(n));
  }

  /** `int(str(n)) == n`: what the settings store and the deep link rely on. */
  lemma ParseShow(n: int)
    ensures ParseInt(Show(n)) == Some(n)
  {
    if n < 0 {
      ParseShowNegative(n);
    } else {
      ParseShowNatural(n);
    }
  }

  /** The text before the first occurrence of `sep`, or all of `s`: Python's
      `s.split(sep)[0]`. */
  function FirstField(s: string, sep: string): (r: string)
    requires sep != []
    ensures |r| <= |s| && r == s[..|r|]
    decreases |s|
  {
    if |s| < |sep| then s
    else if s[..|sep|] == sep then []
    else [s[0]] + FirstField(s[1..], sep)
  }

  /** Splitting `a + sep + b` gives back `a` when `a` cannot start an occurrence
      of `sep`, which holds when `a` does not hold the first character of `sep`. */
  lemma {:induction false} FirstFieldOfJoin(a: string, sep: string, b: string)
    requires sep != []
    requires forall i :: 0 <= i < |a| ==> a[i] != sep[0]
    ensures FirstField(a + sep + b, sep) == a
  {
    var s := a + sep + b;
    if a == [] {
      assert s[..|sep|] == sep;
    } else {
      assert s[0] == a[0] != sep[0];
      assert s[..|sep|] != sep;
      assert s[1..] == a[1..] + sep + b;
      FirstFieldOfJoin(a[1..], sep, b);
    }
  }

  /** Text without the separator's first character is its own first field. */
  lemma {:induction false} FirstFieldWhole(s: string, sep: string)
    requires sep != []
    requires forall i :: 0 <= i < |s| ==> s[i] != sep[0]
    ensures FirstField(s, sep) == s
    decreases |s|
  {
    if |s| >= |sep| {
      assert s[..|sep|][0] == s[0];
      FirstFieldWhole(s[1..], sep);
      assert s == [s[0]] + s[1..];
    }
  }

  /** The separator between an id and a name in the selectors' option labels. */
  const LabelSep: string := " — "

  /** A selector option: the id, the separator, the name. */
  function OptionLabel(id: int, name: string): string {
    Show(id) + LabelSep + name
  }

  /** `int(label.split(" — ")[0])` recovers the id of every option label. */
  lemma LabelId(id: int, name: string)
    ensures ParseInt(FirstField(OptionLabel(id, name), LabelSep)) == Some(id)
  {
    FirstFieldOfJoin(Show(id), LabelSep, name);
    ParseShow(id);
  }
}
