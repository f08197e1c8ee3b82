/** JSON documents as the editor reads and writes them (after `json.load`),
    and the Python built-ins the editor applies to them: `dict.get`,
    truthiness `bool(x)`, `int(x)`, `str(x)` and `str.strip()`. */
module JsonValue {
  import opened Wrappers

  /** A decoded JSON value. JSON objects are dicts: one value per key. */
  datatype Json =
    | JNull
    | JBool(b: bool)
    | JInt(i: int)
    | JStr(s: string)
    | JList(items: seq<Json>)
    | JObj(fields: map<string, Json>)

  /** `d.get(key)`; `None` when the key is absent or `j` is not a dict. */
  function Get(j: Json, key: string): (r: Option<Json>)
    ensures r.Some? <==> j.JObj? && key in j.fields
    ensures r.Some? ==> r.value == j.fields[key]
  {
    if j.JObj? && key in j.fields then Some(j.fields[key]) else None
  }

  /** `d.get(key, default)` on a dict. */
  function GetOr(j: Json, key: string, default: Json): Json
  {
    match Get(j, key)
    case Some(v) => v
    case None => default
  }

  /** Python truthiness, `bool(x)`. */
  predicate Truthy(j: Json)
  {
    match j
    case JNull => false
    case JBool(b) => b
    case JInt(i) => i != 0
    case JStr(s) => s != ""
    case JList(items) => items != []
    case JObj(fields) => fields != map[]
  }

  /** `x or y` on JSON values. */
  function Or(x: Json, y: Json): (r: Json)
    ensures Truthy(x) ==> r == x
    ensures !Truthy(x) ==> r == y
  {
    if Truthy(x) then x else y
  }

  /** The number of scripts with decimal digits (Unicode category Nd,
      version 15.0). */
  const DigitRuns := 68

  /** The code point of the digit zero of script `k`, in increasing order
      from the ASCII zero. Each zero is followed by the digits one to nine,
      so the decimal digits `int` reads are the code points less than ten
      above one of these. */
  function DigitZero(k: nat): int
    requires k < DigitRuns
  {
    if k < 34 then
      if k < 17 then
        if k < 8 then
          if k < 4 then
            if k < 2 then
              if k < 1 then 0x30
              else 0x660
            else
              if k < 3 then 0x6F0
              else 0x7C0
          else
            if k < 6 then
              if k < 5 then 0x966
              else 0x9E6
            else
              if k < 7 then 0xA66
              else 0xAE6
        else
          if k < 12 then
            if k < 10 then
              if k < 9 then 0xB66
              else 0xBE6
            else
              if k < 11 then 0xC66
              else 0xCE6
          else
            if k < 14 then
              if k < 13 then 0xD66
              else 0xDE6
            else
              if k < 15 then 0xE50
              else
                if k < 16 then 0xED0
                else 0xF20
      else
        if k < 25 then
          if k < 21 then
            if k < 19 then
              if k < 18 then 0x1040
              else 0x1090
            else
              if k < 20 then 0x17E0
              else 0x1810
          else
            if k < 23 then
              if k < 22 then 0x1946
              else 0x19D0
            else
              if k < 24 then 0x1A80
              else 0x1A90
        else
          if k < 29 then
            if k < 27 then
              if k < 26 then 0x1B50
              else 0x1BB0
            else
              if k < 28 then 0x1C40
              else 0x1C50
          else
            if k < 31 then
              if k < 30 then 0xA620
              else 0xA8D0
            else
              if k < 32 then 0xA900
              else
                if k < 33 then 0xA9D0
                else 0xA9F0
    else
      if k < 51 then
        if k < 42 then
          if k < 38 then
            if k < 36 then
              if k < 35 then 0xAA50
              else 0xABF0
            else
              if k < 37 then 0xFF10
              else 0x104A0
          else
            if k < 40 then
              if k < 39 then 0x10D30
              else 0x11066
            else
              if k < 41 then 0x110F0
              else 0x11136
        else
          if k < 46 then
            if k < 44 then
              if k < 43 then 0x111D0
              else 0x112F0
            else
              if k < 45 then 0x11450
              else 0x114D0
          else
            if k < 48 then
              if k < 47 then 0x11650
              else 0x116C0
            else
              if k < 49 then 0x11730
              else
                if k < 50 then 0x118E0
                else 0x11950
      else
        if k < 59 then
          if k < 55 then
            if k < 53 then
              if k < 52 then 0x11C50
              else 0x11D50
            else
              if k < 54 then 0x11DA0
              else 0x11F50
          else
            if k < 57 then
              if k < 56 then 0x16A60
              else 0x16AC0
            else
              if k < 58 then 0x16B50
              else 0x1D7CE
        else
          if k < 63 then
            if k < 61 then
              if k < 60 then 0x1D7D8
              else 0x1D7E2
            else
              if k < 62 then 0x1D7EC
              else 0x1D7F6
          else
            if k < 65 then
              if k < 64 then 0x1E140
              else 0x1E2F0
            else
              if k < 66 then 0x1E4F0
              else
                if k < 67 then 0x1E950
                else 0x1FBF0
  }

  /** The value `int` gives the decimal digit `c`, searching the runs from
      `k` on; `None` when `c` is in none of them. */
  function DigitValueFrom(c: char, k: nat): (r: Option<nat>)
    requires k <= DigitRuns
    ensures r.Some? ==> r.value < 10
    decreases DigitRuns - k
  {
    if k == DigitRuns then None
    else if DigitZero(k) <= c as int < DigitZero(k) + 10 then Some(c as int - DigitZero(k))
    else DigitValueFrom(c, k + 1)
  }

  /** The search succeeds exactly when `c` lies in one of the runs from
      `k` on, and then gives its offset from that run's zero. */
  lemma {:induction false} DigitValueFromSpec(c: char, k: nat)
    requires k <= DigitRuns
    ensures DigitValueFrom(c, k).Some? <==> exists j :: k <= j < DigitRuns && DigitZero(j) <= c as int < DigitZero(j) + 10
    ensures DigitValueFrom(c, k).Some? ==>
      exists j :: k <= j < DigitRuns && DigitValueFrom(c, k).value == c as int - DigitZero(j)
    decreases DigitRuns - k
  {
    if k < DigitRuns && !(DigitZero(k) <= c as int < DigitZero(k) + 10) {
      DigitValueFromSpec(c, k + 1);
    }
  }

  /** The value of a decimal digit of any script; the ASCII digits keep
      their usual values and are looked at first. */
  function DigitValue(c: char): (r: Option<nat>)
    ensures r.Some? ==> r.value < 10
    ensures '0' <= c <= '9' ==> r == Some(c as int - '0' as int)
  {
    if '0' <= c <= '9' then Some(c as int - '0' as int) else DigitValueFrom(c, 1)
  }

  /** Consecutive runs are ten or more code points apart. */
  lemma ZerosApart(k: nat)
    requires k + 1 < DigitRuns
    ensures DigitZero(k) + 10 <= DigitZero(k + 1)
  {
  }

  /** The runs are disjoint and in increasing order. */
  lemma {:induction false} ZerosOrdered(k: nat, j: nat)
    requires k < j < DigitRuns
    ensures DigitZero(k) + 10 <= DigitZero(j)
    decreases j - k
  {
    ZerosApart(k);
    if k + 1 < j {
      ZerosOrdered(k + 1, j);
    }
  }

  /** Every character of run `j` reads as its offset from that run's
      zero, whichever run the search starts from below it. */
  lemma {:induction false} DigitInRun(c: char, k: nat, j: nat)
    requires k <= j < DigitRuns && DigitZero(j) <= c as int < DigitZero(j) + 10
    ensures DigitValueFrom(c, k) == Some(c as int - DigitZero(j))
    decreases j - k
  {
    if k < j {
      ZerosOrdered(k, j);
      DigitInRun(c, k + 1, j);
    }
  }

  /** A decimal digit of script `j` has the value of its offset from that
      script's zero. */
  lemma DigitValueOfRun(c: char, j: nat)
    requires j < DigitRuns && DigitZero(j) <= c as int < DigitZero(j) + 10
    ensures DigitValue(c) == Some(c as int - DigitZero(j))
  {
    if j > 0 {
      ZerosOrdered(0, j);
      DigitInRun(c, 1, j);
    }
  }

  function DigitChar(d: nat): (c: char)
    requires d < 10
    ensures '0' <= c <= '9' && c as int - '0' as int == d
  {
    (d + '0' as int) as char
  }

  /** The value of a string of decimal digits of any scripts, most
      significant first; `None` when some character is not a digit. */
  function DigitsOf(s: string): Option<nat>
  {
    if s == [] then Some(0)
    else match (DigitsOf(s[..|s| - 1]), DigitValue(s[|s| - 1]))
      case (Some(v), Some(d)) => Some(v * 10 + d)
      case _ => None
  }

  /** Decimal text of a natural number, as `str(n)` writes it. */
  function NatToString(n: nat): (s: string)
    ensures |s| > 0 && forall i :: 0 <= i < |s| ==> '0' <= s[i] <= '9'
  {
    if n < 10 then [DigitChar(n)] else NatToString(n / 10) + [DigitChar(n % 10)]
  }

  /** `str(i)` and `repr(i)` of a Python int. */
  function IntToString(i: int): (s: string)
    ensures |s| > 0
  {
    if i < 0 then "-" + NatToString(-i) else NatToString(i)
  }

  /** `int(s)` of a string: an optional sign followed by decimal digits. */
  function ParseInt(s: string): Option<int>
  {
    if |s| > 0 && (s[0] == '-' || s[0] == '+') then
      match (if |s| > 1 then DigitsOf(s[1..]) else None)
      case Some(v) =>
        var i: int := if s[0] == '-' then -(v as int) else v;
        Some(i)
      case None => None
    else if |s| > 0 then
      match DigitsOf(s)
      case Some(v) => Some(v)
      case None => None
    else None
  }

  lemma {:induction false} NatToStringValue(n: nat)
    ensures DigitsOf(NatToString(n)) == Some(n)
  {
    var s := NatToString(n);
    if n >= 10 {
      NatToStringValue(n / 10);
      assert s[..|s| - 1] == NatToString(n / 10);
    }
  }

  /** Parsing what `str` wrote gives the number back: `int(str(i)) == i`. */
  lemma {:induction false} ParseIntRoundTrip(i: int)
    ensures ParseInt(IntToString(i)) == Some(i)
  {
    var s := IntToString(i);
    if i < 0 {
      var t := NatToString(-i);
      assert s[0] == '-' && s[1..] == t;
      NatToStringValue(-i);
    } else {
      assert '0' <= s[0] <= '9';
      NatToStringValue(i);
    }
  }

  /** Python `int(x)`; `None` where `int` raises `TypeError`/`ValueError`. */
  function ToInt(j: Json): (r: Option<int>)
    ensures j.JInt? ==> r == Some(j.i)
    ensures j.JNull? || j.JList? || j.JObj? ==> r == None
  {
    match j
    case JBool(b) => Some(if b then 1 else 0)
    case JInt(i) => Some(i)
    case JStr(s) => ParseInt(s)
    case _ => None
  }

  /** No decimal digit of any script lies below the ASCII zero, so a sign
      is never a digit. */
  lemma DigitsFromZero(c: char)
    requires DigitValue(c).Some?
    ensures '0' <= c
  {
    if c < '0' {
      DigitValueFromSpec(c, 1);
      var j :| 1 <= j < DigitRuns && DigitZero(j) <= c as int < DigitZero(j) + 10;
      ZerosOrdered(0, j);
    }
  }

  /** `int` reads the digits of every script, not only ASCII: the
      Arabic-Indic digits one and two read as 12. */
  lemma ArabicIndicDigitsRead(s: string)
    requires s == "\U{661}\U{662}"
    ensures ParseInt(s) == Some(12)
  {
    DigitValueOfRun(s[0], 1);
    DigitValueOfRun(s[1], 1);
    var head := s[..1];
    assert head[0] == s[0] && head[..0] == [];
    assert DigitsOf(head) == Some(1);
    assert s[..|s| - 1] == head;
  }

  /** The full-width digits one and two read as 12 too. */
  lemma FullWidthDigitsRead(s: string)
    requires s == "\U{FF11}\U{FF12}"
    ensures ParseInt(s) == Some(12)
  {
    DigitValueOfRun(s[0], 36);
    DigitValueOfRun(s[1], 36);
    var head := s[..1];
    assert head[0] == s[0] && head[..0] == [];
    assert DigitsOf(head) == Some(1);
    assert s[..|s| - 1] == head;
  }

  /** Python `str(x)` of a JSON scalar. */
  function PyStr(j: Json): (s: string)
    ensures j.JStr? ==> s == j.s
  {
    match j
    case JNull => "None"
    case JBool(b) => if b then "True" else "False"
    case JInt(i) => IntToString(i)
    case JStr(s) => s
    case _ => ""
  }

  /** The characters Python's `str.isspace()` accepts, and so the ones
      `str.strip()` with no argument removes: the ASCII controls tab to
      carriage return, the separators 0x1C-0x1F, the space, NEL, the
      no-break space and the Unicode space separators, line and paragraph
      separators. */
  predicate IsSpace(c: char)
  {
    || c == ' ' || ('\t' <= c <= '\r') || ('\U{1C}' <= c <= '\U{1F}')
    || c == '\U{85}' || c == '\U{A0}' || c == '\U{1680}'
    || ('\U{2000}' <= c <= '\U{200A}') || c == '\U{2028}' || c == '\U{2029}'
    || c == '\U{202F}' || c == '\U{205F}' || c == '\U{3000}'
  }

  /** The index of the first character at or after `i` that is not
      white space, `|s|` when there is none. */
  function SkipSpace(s: string, i: nat): (k: nat)
    requires i <= |s|
    ensures i <= k <= |s|
    ensures forall m :: i <= m < k ==> IsSpace(s[m])
    ensures k < |s| ==> !IsSpace(s[k])
    decreases |s| - i
  {
    if i < |s| && IsSpace(s[i]) then SkipSpace(s, i + 1) else i
  }

  /** The index just past the last character before `j`, and not before
      `lo`, that is not white space; `lo` when there is none. */
  function BackSpace(s: string, lo: nat, j: nat): (k: nat)
    requires lo <= j <= |s|
    ensures lo <= k <= j
    ensures forall m :: k <= m < j ==> IsSpace(s[m])
    ensures k > lo ==> !IsSpace(s[k - 1])
  {
    if j > lo && IsSpace(s[j - 1]) then BackSpace(s, lo, j - 1) else j
  }

  /** `s.lstrip()`. */
  function TrimLeft(s: string): (r: string)
    ensures |r| <= |s| && r == s[|s| - |r|..]
    ensures r == [] || !IsSpace(r[0])
    ensures forall i :: 0 <= i < |s| - |r| ==> IsSpace(s[i])
  {
    s[SkipSpace(s, 0)..]
  }

  /** `s.rstrip()`. */
  function TrimRight(s: string): (r: string)
    ensures |r| <= |s| && r == s[..|r|]
    ensures r == [] || !IsSpace(r[|r| - 1])
    ensures forall i :: |r| <= i < |s| ==> IsSpace(s[i])
  {
    s[..BackSpace(s, 0, |s|)]
  }

  /** `s.strip()`: the longest middle part that neither starts nor ends in
      white space, everything cut off being white space. */
  function Strip(s: string): (r: string)
    ensures r == [] || (!IsSpace(r[0]) && !IsSpace(r[|r| - 1]))
    ensures var a := |s| - |TrimLeft(s)|;
      && a + |r| <= |s| && r == s[a..a + |r|]
      && (forall i :: 0 <= i < a ==> IsSpace(s[i]))
      && (forall i :: a + |r| <= i < |s| ==> IsSpace(s[i]))
  {
    var a := SkipSpace(s, 0);
    assert |s| - |TrimLeft(s)| == a;
    s[a..BackSpace(s, a, |s|)]
  }

  /** Stripping keeps only characters of the string. */
  lemma StripSubset(s: string)
    ensures forall c :: c in Strip(s) ==> c in s
  {
    var a := |s| - |TrimLeft(s)|;
    var r := Strip(s);
    forall c | c in r
      ensures c in s
    {
      var i :| 0 <= i < |r| && r[i] == c;
      assert s[a + i] == c;
    }
  }
}
