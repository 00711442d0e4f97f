/** Compact JSON text, as `JSON.stringify` writes it, and decimal numerals. */
module Json {
  /** A number's text when the number is no integer, as JavaScript and Python print it. */
  type Numeral = s: string | s != "" && forall c <- s :: c in "0123456789+-.eE" witness "0.5"

  datatype Json =
    | Null
    | Bool(b: bool)
    | Num(n: int)
    | Fraction(text: Numeral)
    | Str(s: string)
    | Arr(items: seq<Json>)
    | Obj(members: seq<Member>)

  datatype Member = Member(key: string, value: Json)

  /** The value of a key; an absent one reads as null. */
  function Field(members: seq<Member>, key: string): Json {
    if members == [] then Null
    else if members[|members| - 1].key == key then members[|members| - 1].value
    else Field(members[..|members| - 1], key)
  }

  predicate DistinctKeys(members: seq<Member>) {
    forall i, j :: 0 <= i < j < |members| ==> members[i].key != members[j].key
  }

  const DIGITS := "0123456789"

  /** Decimal digits, most significant first, no leading zero. */
  function Digits(n: nat): (s: string)
    ensures s != "" && forall c <- s :: c in DIGITS
  {
    if n < 10 then [DIGITS[n]] else Digits(n / 10) + [DIGITS[n % 10]]
  }

  function Dec(n: int): (s: string)
    ensures s != ""
  {
    if n < 0 then "-" + Digits(-n) else Digits(n)
  }

  function HexDigit(k: nat): char
    requires k < 16
  {
    "0123456789abcdef"[k]
  }

  /** Section 7 of RFC 8259: quotation mark, reverse solidus and control characters are escaped. */
  function Escape(c: char): string {
    if c == '\"' then "\\\""
    else if c == '\\' then "\\\\"
    else if c == '\n' then "\\n"
    else if c == '\r' then "\\r"
    else if c == '\t' then "\\t"
    else if c as int == 8 then "\\b"
    else if c as int == 12 then "\\f"
    else if (c as int) < 32 then "\\u00" + [HexDigit(c as int / 16), HexDigit(c as int % 16)]
    else [c]
  }

  function Escaped(s: string): string {
    if s == "" then "" else Escape(s[0]) + Escaped(s[1..])
  }

  function Print(j: Json): string
    decreases j, 0
  {
    match j
    case Null => "null"
    case Bool(b) => if b then "true" else "false"
    case Num(n) => Dec(n)
    case Fraction(text) => text
    case Str(s) => "\"" + Escaped(s) + "\""
    case Arr(items) => "[" + PrintItems(items) + "]"
    case Obj(members) => "{" + PrintMembers(members) + "}"
  }

  function PrintItems(items: seq<Json>): string
    decreases items, 0
  {
    if items == [] then ""
    else Print(items[0]) + (if |items| > 1 then "," else "") + PrintItems(items[1..])
  }

  function PrintMembers(members: seq<Member>): string
    decreases members, 0
  {
    if members == [] then ""
    else "\"" + Escaped(members[0].key) + "\":" + Print(members[0].value)
         + (if |members| > 1 then "," else "") + PrintMembers(members[1..])
  }

  // ---- compact JSON is one line ------------------------------------------------------------

  predicate NoControl(s: string) {
    forall i :: 0 <= i < |s| ==> s[i] >= ' '
  }

  lemma {:induction false} EscapedNoControl(s: string)
    ensures NoControl(Escaped(s))
  {
    if s != "" {
      EscapedNoControl(s[1..]);
      assert NoControl(Escape(s[0]));
    }
  }

  lemma {:induction false} DigitsNoControl(n: nat)
    ensures NoControl(Digits(n))
  {
    if n >= 10 {
      DigitsNoControl(n / 10);
    }
  }

  lemma NumeralNoControl(text: Numeral)
    ensures NoControl(text)
  {
    forall i | 0 <= i < |text| ensures text[i] >= ' ' {
      assert text[i] in text;
    }
  }

  /** No compact JSON text holds a raw line break or any other control character. */
  lemma {:induction false} PrintNoControl(j: Json)
    ensures Print(j) != "" && NoControl(Print(j))
    decreases j, 0
  {
    match j
    case Num(n) => DigitsNoControl(if n < 0 then -n else n);
    case Fraction(text) => NumeralNoControl(text);
    case Str(s) =>
      EscapedNoControl(s);
      Enclosed('\"', Escaped(s), '\"');
    case Arr(items) =>
      ItemsNoControl(items);
      Enclosed('[', PrintItems(items), ']');
    case Obj(members) =>
      MembersNoControl(members);
      Enclosed('{', PrintMembers(members), '}');
    case _ =>
  }

  lemma Enclosed(a: char, s: string, b: char)
    requires a >= ' ' && b >= ' ' && NoControl(s)
    ensures NoControl([a] + s + [b])
  {
  }

  lemma {:induction false} ItemsNoControl(items: seq<Json>)
    ensures NoControl(PrintItems(items))
    decreases items, 0
  {
    if items != [] {
      PrintNoControl(items[0]);
      ItemsNoControl(items[1..]);
    }
  }

  lemma {:induction false} MembersNoControl(members: seq<Member>)
    ensures NoControl(PrintMembers(members))
    decreases members, 0
  {
    if members != [] {
      EscapedNoControl(members[0].key);
      PrintNoControl(members[0].value);
      MembersNoControl(members[1..]);
    }
  }
}
