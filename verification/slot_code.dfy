/** The slot codes a specialist submits when publishing a schedule: the first
    two characters are the day of the month, the next four the start time
    (kept as text, "HHMM") and the next two the duration in minutes.  Each
    field is read only when the upsert needs it, and reading it may fail: a
    code too short for its `substring`, or a field `Integer.parseInt`
    rejects, ends the request with an exception.  Every reader below returns
    `None` for that case. */
module SlotCode {
  import opened Wrappers

  /** The range of a Java `int`, outside which `Integer.parseInt` fails. */
  const MinInt: int := -0x8000_0000
  const MaxInt: int := 0x7fff_ffff

  /** `c` lies in the run of ten digits that starts at `z`. */
  predicate InRun(c: int, z: int) {
    z <= c < z + 10
  }

  /** The zero of the run of ten decimal digits (general category Nd) that
      holds code point `c`, for the runs of the Basic Multilingual Plane in
      Unicode 6.2: ASCII, Arabic-Indic, Devanagari, ..., fullwidth. */
  function DigitZero(c: int): (z: Option<int>)
    ensures z.Some? ==> InRun(c, z.value)
    ensures InRun(c, 0x0030) ==> z == Some(0x0030)
  {
    if InRun(c, 0x0030) then Some(0x0030)
    else if InRun(c, 0x0660) then Some(0x0660)
    else if InRun(c, 0x06F0) then Some(0x06F0)
    else if InRun(c, 0x07C0) then Some(0x07C0)
    else if InRun(c, 0x0966) then Some(0x0966)
    else if InRun(c, 0x09E6) then Some(0x09E6)
    else if InRun(c, 0x0A66) then Some(0x0A66)
    else if InRun(c, 0x0AE6) then Some(0x0AE6)
    else if InRun(c, 0x0B66) then Some(0x0B66)
    else if InRun(c, 0x0BE6) then Some(0x0BE6)
    else if InRun(c, 0x0C66) then Some(0x0C66)
    else if InRun(c, 0x0CE6) then Some(0x0CE6)
    else if InRun(c, 0x0D66) then Some(0x0D66)
    else if InRun(c, 0x0E50) then Some(0x0E50)
    else if InRun(c, 0x0ED0) then Some(0x0ED0)
    else if InRun(c, 0x0F20) then Some(0x0F20)
    else if InRun(c, 0x1040) then Some(0x1040)
    else if InRun(c, 0x1090) then Some(0x1090)
    else if InRun(c, 0x17E0) then Some(0x17E0)
    else if InRun(c, 0x1810) then Some(0x1810)
    else if InRun(c, 0x1946) then Some(0x1946)
    else if InRun(c, 0x19D0) then Some(0x19D0)
    else if InRun(c, 0x1A80) then Some(0x1A80)
    else if InRun(c, 0x1A90) then Some(0x1A90)
    else if InRun(c, 0x1B50) then Some(0x1B50)
    else if InRun(c, 0x1BB0) then Some(0x1BB0)
    else if InRun(c, 0x1C40) then Some(0x1C40)
    else if InRun(c, 0x1C50) then Some(0x1C50)
    else if InRun(c, 0xA620) then Some(0xA620)
    else if InRun(c, 0xA8D0) then Some(0xA8D0)
    else if InRun(c, 0xA900) then Some(0xA900)
    else if InRun(c, 0xA9D0) then Some(0xA9D0)
    else if InRun(c, 0xAA50) then Some(0xAA50)
    else if InRun(c, 0xABF0) then Some(0xABF0)
    else if InRun(c, 0xFF10) then Some(0xFF10)
    else None
  }

  /** `Character.digit(ch, 10)`: the value of a decimal digit of any script,
      `None` where Java answers -1. */
  function Digit(ch: char): (d: Option<int>)
    ensures d.Some? ==> 0 <= d.value <= 9
    ensures '0' <= ch <= '9' ==> d == Some(ch as int - '0' as int)
    ensures ch == '-' || ch == '+' ==> d.None?
  {
    match DigitZero(ch as int)
    case None => None
    case Some(z) => Some(ch as int - z)
  }

  /** The value of a run of decimal digits, most significant first; `None`
      when some character is not a digit. */
  function DigitsValue(s: string): (v: Option<nat>)
    ensures v.Some? <==> forall i :: 0 <= i < |s| ==> Digit(s[i]).Some?
  {
    if s == [] then Some(0)
    else
      var p := DigitsValue(s[..|s| - 1]);
      var d := Digit(s[|s| - 1]);
      assert forall i :: 0 <= i < |s| - 1 ==> s[..|s| - 1][i] == s[i];
      if p.Some? && d.Some? then Some(10 * p.value + d.value) else None
  }

  /** The value of one or two characters read as digits. */
  lemma DigitsValueShort(s: string)
    requires 1 <= |s| <= 2
    ensures |s| == 1 ==> DigitsValue(s) == if Digit(s[0]).Some? then Some(Digit(s[0]).value) else None
    ensures |s| == 2 && Digit(s[0]).Some? && Digit(s[1]).Some? ==>
      DigitsValue(s) == Some(10 * Digit(s[0]).value + Digit(s[1]).value)
    ensures |s| == 2 && (Digit(s[0]).None? || Digit(s[1]).None?) ==> DigitsValue(s).None?
  {
    if |s| == 2 {
      assert s[..1] == [s[0]];
      assert [s[0]][..0] == [];
    } else {
      assert s[..0] == [];
    }
  }

  /** `Integer.parseInt(s)`: an optional sign, then at least one decimal
      digit, with a value that fits an `int`; `None` where Java throws
      `NumberFormatException`. */
  function ParseInt(s: string): (n: Option<int>)
    ensures n.Some? ==> MinInt <= n.value <= MaxInt
    ensures |s| <= 1 && (s == [] || Digit(s[0]).None?) ==> n.None?
    ensures |s| == 2 && Digit(s[0]).Some? && Digit(s[1]).Some? ==>
      n == Some(10 * Digit(s[0]).value + Digit(s[1]).value)
    ensures |s| == 2 && s[0] == '-' && Digit(s[1]).Some? ==> n == Some(-Digit(s[1]).value)
    ensures |s| == 2 && s[0] == '+' && Digit(s[1]).Some? ==> n == Some(Digit(s[1]).value)
    ensures |s| == 2 && Digit(s[1]).None? ==> n.None?
    ensures |s| == 2 && Digit(s[0]).None? && s[0] != '-' && s[0] != '+' ==> n.None?
  {
    if s == [] then None
    else
      var signed := s[0] == '-' || s[0] == '+';
      var body := if signed then s[1..] else s;
      if body == [] then None
      else
        var m := DigitsValue(body);
        if m.None? then None
        else
          assert |s| <= 2 ==> (DigitsValueShort(body); true);
          var v: int := if s[0] == '-' then -(m.value as int) else m.value;
          if MinInt <= v <= MaxInt then Some(v) else None
  }

  /** The day field, `Integer.parseInt(code.substring(0, 2))`. */
  function Dia(code: string): (d: Option<int>)
    ensures |code| < 2 ==> d.None?
    ensures d.Some? ==> -9 <= d.value <= 99
  {
    if |code| < 2 then None else ParseInt(code[..2])
  }

  /** The start-time field, `code.substring(2, 6)`, kept as text. */
  function HoraInicio(code: string): (h: Option<string>)
    ensures h.Some? <==> |code| >= 6
    ensures h.Some? ==> |h.value| == 4
  {
    if |code| < 6 then None else Some(code[2..6])
  }

  /** The duration field, `Integer.parseInt(code.substring(6, 8))`. */
  function Duracion(code: string): (d: Option<int>)
    ensures |code| < 8 ==> d.None?
    ensures d.Some? ==> -9 <= d.value <= 99
  {
    if |code| < 8 then None else ParseInt(code[6..8])
  }

  /** A code every field of which can be read. */
  predicate WellFormed(code: string) {
    Dia(code).Some? && HoraInicio(code).Some? && Duracion(code).Some?
  }

  /** The three fields carried by one slot code. */
  datatype Slot = Slot(dia: int, horaInicio: string, duracion: int)

  /** All three fields of `code`, when every one of them can be read. */
  function Decode(code: string): (s: Option<Slot>)
    ensures s.Some? <==> WellFormed(code)
    ensures s.Some? ==>
      |code| >= 8 && -9 <= s.value.dia <= 99 && |s.value.horaInicio| == 4 && -9 <= s.value.duracion <= 99
  {
    if WellFormed(code) then Some(Slot(Dia(code).value, HoraInicio(code).value, Duracion(code).value))
    else None
  }

  predicate IsAsciiDigit(ch: char) {
    '0' <= ch <= '9'
  }

  /** Two ASCII digits for a number in 0..99. */
  function TwoDigits(n: int): (s: string)
    requires 0 <= n <= 99
    ensures |s| == 2 && IsAsciiDigit(s[0]) && IsAsciiDigit(s[1])
    ensures ParseInt(s) == Some(n)
  {
    [('0' as int + n / 10) as char, ('0' as int + n % 10) as char]
  }

  /** A slot the code format can express: two-digit day and duration and a
      four-character start time. */
  predicate Encodable(s: Slot) {
    0 <= s.dia <= 99 && |s.horaInicio| == 4 && 0 <= s.duracion <= 99
  }

  /** The code a client sends for a slot: "DD" + "HHMM" + "DU". */
  function Encode(s: Slot): (code: string)
    requires Encodable(s)
    ensures |code| == 8
  {
    TwoDigits(s.dia) + s.horaInicio + TwoDigits(s.duracion)
  }

  /** Decoding recovers every slot the format can express. */
  lemma DecodeEncode(s: Slot)
    requires Encodable(s)
    ensures Decode(Encode(s)) == Some(s)
  {
    var code := Encode(s);
    assert code[..2] == TwoDigits(s.dia);
    assert code[2..6] == s.horaInicio;
    assert code[6..8] == TwoDigits(s.duracion);
  }

  /** Two ASCII digits are the TwoDigits of the number they parse to. */
  lemma ParseTwoDigits(d: string)
    requires |d| == 2 && IsAsciiDigit(d[0]) && IsAsciiDigit(d[1])
    ensures ParseInt(d).Some? && 0 <= ParseInt(d).value <= 99
    ensures TwoDigits(ParseInt(d).value) == d
  {
    var n := ParseInt(d).value;
    assert n == 10 * (d[0] as int - '0' as int) + (d[1] as int - '0' as int);
  }

  /** A code whose day and duration are written with ASCII digits is the
      encoding of what it decodes to; characters after the eighth are
      ignored. */
  lemma EncodeDecode(code: string)
    requires |code| >= 8
    requires IsAsciiDigit(code[0]) && IsAsciiDigit(code[1]) && IsAsciiDigit(code[6]) && IsAsciiDigit(code[7])
    ensures Decode(code).Some? && Encodable(Decode(code).value)
    ensures Encode(Decode(code).value) == code[..8]
  {
    var d, h, u := code[..2], code[2..6], code[6..8];
    ParseTwoDigits(d);
    ParseTwoDigits(u);
    var s := Slot(ParseInt(d).value, h, ParseInt(u).value);
    assert Decode(code) == Some(s);
    assert code[..8] == d + h + u;
  }

  /** Digits of other scripts read as their ASCII counterparts: an
      Arabic-Indic code decodes to the same slot as the ASCII one, so
      decoding is not injective. */
  lemma OtherScriptDigits()
    ensures Decode("\U{0660}\U{0661}0900\U{0663}\U{0660}") == Decode("01090030") == Some(Slot(1, "0900", 30))
  {
    var a := "\U{0660}\U{0661}0900\U{0663}\U{0660}";
    assert Digit('\U{0660}') == Some(0) && Digit('\U{0661}') == Some(1) && Digit('\U{0663}') == Some(3);
    assert a[..2] == ['\U{0660}', '\U{0661}'] && a[2..6] == "0900" && a[6..8] == ['\U{0663}', '\U{0660}'];
    assert Dia(a) == Some(1) && Duracion(a) == Some(30);
    var b := "01090030";
    assert b[..2] == ['0', '1'] && b[2..6] == "0900" && b[6..8] == ['3', '0'];
    assert Dia(b) == Some(1) && Duracion(b) == Some(30);
  }
}
