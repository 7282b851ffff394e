/** The value coercion `load_config` applies to every entry of the selected
    configuration section (src/utils/utils.py): an all-digit value becomes an
    int, a value with one decimal point between digits a float, a
    case-insensitive true/false a bool, and anything else stays a string. */
module ConfigValues {

  datatype ConfigValue = IntVal(i: int) | FloatVal(r: real) | BoolVal(b: bool) | StrVal(s: string)

  predicate IsDigit(c: char) {
    '0' <= c <= '9'
  }

  predicate AllDigits(s: string) {
    forall i :: 0 <= i < |s| ==> IsDigit(s[i])
  }

  /** `str.isdigit()`: non-empty and every character a digit. */
  predicate IsDigitString(s: string) {
    |s| > 0 && AllDigits(s)
  }

  function DigitValue(c: char): nat {
    if IsDigit(c) then (c - '0') as nat else 0
  }

  /** The number a digit string denotes in base ten. */
  function DigitsValue(s: string): nat {
    if |s| == 0 then 0 else DigitsValue(s[..|s| - 1]) * 10 + DigitValue(s[|s| - 1])
  }

  function Pow10(n: nat): (p: nat)
    ensures p >= 1
  {
    if n == 0 then 1 else 10 * Pow10(n - 1)
  }

  /** Index of the first '.', or |s| when there is none. */
  function FirstDot(s: string): (i: nat)
    ensures i <= |s|
    ensures i < |s| ==> s[i] == '.'
    ensures forall j :: 0 <= j < i ==> s[j] != '.'
  {
    if |s| == 0 then 0 else if s[0] == '.' then 0 else 1 + FirstDot(s[1..])
  }

  /** `s.replace('.', '', 1)`. */
  function DropFirstDot(s: string): string {
    var i := FirstDot(s);
    if i < |s| then s[..i] + s[i + 1..] else s
  }

  /** `s.count('.')`. */
  function CountDots(s: string): nat {
    if |s| == 0 then 0 else CountDots(s[..|s| - 1]) + (if s[|s| - 1] == '.' then 1 else 0)
  }

  function LowerChar(c: char): char {
    if 'A' <= c <= 'Z' then (c - 'A' + 'a') as char else c
  }

  /** `s.lower()` on ASCII letters. */
  function Lower(s: string): (r: string)
    ensures |r| == |s| && forall i :: 0 <= i < |s| ==> r[i] == LowerChar(s[i])
  {
    seq(|s|, i requires 0 <= i < |s| => LowerChar(s[i]))
  }

  /** Digits, one '.', digits, and at least one digit in all: what Python's
      `float` accepts among the strings the float test lets through. */
  ghost predicate DecimalForm(s: string) {
    exists i :: 0 <= i < |s| && s[i] == '.' && AllDigits(s[..i]) && AllDigits(s[i + 1..]) && |s| >= 2
  }

  /** The real number written `whole.frac`. */
  function Decimal(whole: string, frac: string): real {
    DigitsValue(whole) as real + DigitsValue(frac) as real / Pow10(|frac|) as real
  }

  /** `float(s)` on digits with at most one dot. */
  function ParseFloat(s: string): real {
    var i := FirstDot(s);
    if i < |s| then Decimal(s[..i], s[i + 1..]) else DigitsValue(s) as real
  }

  /** CPython's default limit on the number of digits `int()` converts from
      a string (`sys.int_info.default_max_str_digits`, Python 3.11 on); a
      longer digit string makes `int()` raise a ValueError. */
  const MaxStrDigits: nat := 4300

  /** The chain of tests in `load_config`, tried in the order int, float,
      bool, string. A ValueError from the conversion keeps the string. */
  function Coerce(value: string): (r: ConfigValue)
    ensures r.StrVal? ==> r.s == value
  {
    if IsDigitString(value) then
      if |value| <= MaxStrDigits then IntVal(DigitsValue(value)) else StrVal(value)
    else if IsDigitString(DropFirstDot(value)) && CountDots(value) < 2 then
      FloatVal(ParseFloat(value))
    else if Lower(value) == "true" then
      BoolVal(true)
    else if Lower(value) == "false" then
      BoolVal(false)
    else
      StrVal(value)
  }

  /** Which kind of value a string becomes, stated by the string's shape. */
  lemma CoerceClassifies(value: string)
    ensures Coerce(value).IntVal? <==> IsDigitString(value) && |value| <= MaxStrDigits
    ensures Coerce(value).FloatVal? <==> DecimalForm(value)
    ensures Coerce(value).BoolVal? <==> !IsDigitString(value) && !DecimalForm(value)
                                        && (Lower(value) == "true" || Lower(value) == "false")
    ensures Coerce(value).BoolVal? ==> (Coerce(value).b <==> Lower(value) == "true")
    ensures Coerce(value).StrVal? <==> (IsDigitString(value) && |value| > MaxStrDigits)
                                       || (!IsDigitString(value) && !DecimalForm(value)
                                           && Lower(value) != "true" && Lower(value) != "false")
  {
    if !IsDigitString(value) && IsDigitString(DropFirstDot(value)) && CountDots(value) < 2 {
      FloatTestSound(value);
    }
    if DecimalForm(value) {
      var k :| 0 <= k < |value| && value[k] == '.' && AllDigits(value[..k]) && AllDigits(value[k + 1..]) && |value| >= 2;
      FloatTestComplete(value, k);
    }
  }

  /** An int is the base-ten value of the digits; a float is the decimal
      number written on either side of the dot. */
  lemma CoerceValue(value: string)
    ensures Coerce(value).IntVal? ==> Coerce(value).i == DigitsValue(value)
    ensures Coerce(value).FloatVal? ==> forall i :: 0 <= i < |value| && value[i] == '.' ==>
              Coerce(value).r == Decimal(value[..i], value[i + 1..])
  {
    if Coerce(value).FloatVal? {
      CoerceClassifies(value);
      var k :| 0 <= k < |value| && value[k] == '.' && AllDigits(value[..k]) && AllDigits(value[k + 1..]) && |value| >= 2;
      FloatTestComplete(value, k);
    }
  }

  /** "1.5", ".5" and "1." all pass the float test: a digit is needed on one
      side of the dot only. */
  lemma FloatExamples()
    ensures Coerce("1.5") == FloatVal(1.5)
    ensures Coerce(".5") == FloatVal(0.5)
    ensures Coerce("1.") == FloatVal(1.0)
  {
    assert "1.5"[..1] == "1" && "1.5"[2..] == "5";
    assert ".5"[..0] == "" && ".5"[1..] == "5";
    assert "1."[..1] == "1" && "1."[2..] == "";
    assert DigitsValue("1") == 1 && DigitsValue("5") == 5 && DigitsValue("") == 0;
    FloatExample("1.5", 1);
    FloatExample(".5", 0);
    FloatExample("1.", 1);
  }

  lemma FloatExample(s: string, k: nat)
    requires 0 <= k < |s| && s[k] == '.' && AllDigits(s[..k]) && AllDigits(s[k + 1..]) && |s| >= 2
    ensures Coerce(s) == FloatVal(Decimal(s[..k], s[k + 1..]))
  {
    FloatTestComplete(s, k);
  }

  /** Neither a lone dot nor two dots is a number, and the empty string
      stays a string. */
  lemma StringExamples()
    ensures Coerce(".") == StrVal(".")
    ensures Coerce("1.2.3") == StrVal("1.2.3")
    ensures Coerce("") == StrVal("")
  {
    assert FirstDot(".") == 0 && DropFirstDot(".") == "";
    assert FirstDot("1.2.3") == 1 && DropFirstDot("1.2.3")[2] == '.';
    assert Lower(".")[0] == '.';
    assert Lower("1.2.3")[1] == '.';
  }

  /** The boolean test ignores case. */
  lemma BoolExamples()
    ensures Coerce("TRUE") == BoolVal(true)
    ensures Coerce("False") == BoolVal(false)
  {
    assert !IsDigit('T') && !IsDigit('F');
    assert Lower("TRUE") == "true";
    assert Lower("False") == "false";
  }

  /** The float test of the source, read as a shape: whatever passes it is a
      decimal form. */
  lemma FloatTestSound(s: string)
    requires !IsDigitString(s) && IsDigitString(DropFirstDot(s)) && CountDots(s) < 2
    ensures DecimalForm(s)
  {
    var i := FirstDot(s);
    var d := DropFirstDot(s);
    assert i < |s|;
    DropDotSlices(s);
    DigitsSlice(d, 0, i);
    DigitsSlice(d, i, |d|);
    assert s[i] == '.' && AllDigits(s[..i]) && AllDigits(s[i + 1..]) && |s| >= 2;
  }

  /** Around the first dot, `s` and `s` without that dot agree. */
  lemma DropDotSlices(s: string)
    requires FirstDot(s) < |s|
    ensures |DropFirstDot(s)| == |s| - 1
    ensures s[..FirstDot(s)] == DropFirstDot(s)[..FirstDot(s)]
    ensures s[FirstDot(s) + 1..] == DropFirstDot(s)[FirstDot(s)..]
  {
    var i := FirstDot(s);
    assert DropFirstDot(s) == s[..i] + s[i + 1..];
  }

  lemma DigitsSlice(s: string, a: int, b: int)
    requires AllDigits(s) && 0 <= a <= b <= |s|
    ensures AllDigits(s[a..b])
  {
  }

  /** Every decimal form passes the float test, and its dot is the first one. */
  lemma FloatTestComplete(s: string, k: int)
    requires 0 <= k < |s| && s[k] == '.' && AllDigits(s[..k]) && AllDigits(s[k + 1..]) && |s| >= 2
    ensures !IsDigitString(s) && IsDigitString(DropFirstDot(s)) && CountDots(s) < 2
    ensures FirstDot(s) == k && forall i :: 0 <= i < |s| && s[i] == '.' ==> i == k
  {
    OnlyDot(s, k);
    assert FirstDot(s) == k;
    var d := DropFirstDot(s);
    assert d == s[..k] + s[k + 1..];
    forall j | 0 <= j < |d|
      ensures IsDigit(d[j])
    {
      if j < k {
        assert d[j] == s[j];
      } else {
        assert d[j] == s[j + 1];
      }
    }
    assert !IsDigit(s[k]);
    DotsCount(s, k);
  }

  /** In a decimal form every character other than the dot is a digit, so
      the dot is unique. */
  lemma OnlyDot(s: string, k: int)
    requires 0 <= k < |s| && s[k] == '.' && AllDigits(s[..k]) && AllDigits(s[k + 1..])
    ensures forall j :: 0 <= j < |s| && j != k ==> IsDigit(s[j])
  {
    forall j | 0 <= j < |s| && j != k
      ensures IsDigit(s[j])
    {
      if j < k {
        assert s[j] == s[..k][j];
      } else {
        assert s[j] == s[k + 1..][j - k - 1];
      }
    }
  }

  lemma {:induction false} DotsCount(s: string, k: int)
    requires 0 <= k < |s| && forall j :: 0 <= j < |s| && j != k ==> IsDigit(s[j])
    ensures CountDots(s) == (if s[k] == '.' then 1 else 0)
    decreases |s|
  {
    var n := |s| - 1;
    if k < n {
      DotsCount(s[..n], k);
    } else {
      NoDots(s[..n]);
    }
  }

  lemma {:induction false} NoDots(s: string)
    requires AllDigits(s)
    ensures CountDots(s) == 0
    decreases |s|
  {
    if |s| > 0 {
      NoDots(s[..|s| - 1]);
    }
  }

  /** Decimal digits of a natural number, most significant first. */
  function NatToString(n: nat): (s: string)
    ensures IsDigitString(s)
  {
    if n < 10 then ['0' + n as char] else NatToString(n / 10) + ['0' + (n % 10) as char]
  }

  /** Rendering a number of at most `MaxStrDigits` digits and coercing it
      back gives the same int. */
  lemma {:induction false} IntRoundTrip(n: nat)
    requires n < Pow10(MaxStrDigits)
    ensures Coerce(NatToString(n)) == IntVal(n)
  {
    DigitsOfNat(n);
    DigitCount(n, MaxStrDigits);
  }

  /** A number below 10^k, k >= 1, is written with at most k digits. */
  lemma {:induction false} DigitCount(n: nat, k: nat)
    requires k >= 1 && n < Pow10(k)
    ensures |NatToString(n)| <= k
    decreases k
  {
    if n >= 10 {
      assert Pow10(1) == 10;
      assert k >= 2;
      assert n / 10 < Pow10(k - 1);
      DigitCount(n / 10, k - 1);
    }
  }

  lemma {:induction false} DigitsOfNat(n: nat)
    ensures DigitsValue(NatToString(n)) == n
  {
    if n >= 10 {
      DigitsOfNat(n / 10);
      var s := NatToString(n);
      assert s[..|s| - 1] == NatToString(n / 10);
    }
  }

  /** The value last written for `k` among the items ("" when none is). */
  function LastValue(items: seq<(string, string)>, k: string): string {
    if |items| == 0 then ""
    else if items[|items| - 1].0 == k then items[|items| - 1].1
    else LastValue(items[..|items| - 1], k)
  }

  /** `load_config`'s loop over a section's items: each key holds the
      coercion of the last value written for it. */
  function ApplyItems(items: seq<(string, string)>): (cfg: map<string, ConfigValue>)
    ensures cfg.Keys == set p | p in items :: p.0
    ensures forall k :: k in cfg ==> cfg[k] == Coerce(LastValue(items, k))
  {
    if |items| == 0 then map[]
    else
      var n := |items| - 1;
      var prev := ApplyItems(items[..n]);
      assert forall p :: p in items <==> p in items[..n] || p == items[n];
      prev[items[n].0 := Coerce(items[n].1)]
  }

  /** `load_config(path, env)` given the parsed file as a map from section
      names to their items: a missing section yields an empty configuration. */
  function LoadConfig(sections: map<string, seq<(string, string)>>, env: string): (cfg: map<string, ConfigValue>)
    ensures env !in sections ==> cfg == map[]
    ensures env in sections ==> cfg.Keys == set p | p in sections[env] :: p.0
    ensures env in sections ==> forall k :: k in cfg ==> cfg[k] == Coerce(LastValue(sections[env], k))
  {
    if env in sections then ApplyItems(sections[env]) else map[]
  }
}
