/** `json.dumps(value)` with Python's defaults: `ensure_ascii=True`, item
    separator ", ", key separator ": ", dict keys in insertion order. The
    Terraform rendering prints list and dict values this way. */
module Json {
  import opened Dicts
  import opened Values
  import Text

  /** The four lower-case hex digits of a UTF-16 code unit (`'%04x'`). */
  function Hex4(n: nat): (r: string)
    requires n < 0x10000
    ensures |r| == 4
  {
    var digits := "0123456789abcdef";
    [digits[n / 0x1000], digits[n / 0x100 % 16], digits[n / 16 % 16], digits[n % 16]]
  }

  /** `\\uXXXX` for a code point below 0x10000, a UTF-16 surrogate pair of
      such escapes above it. */
  function UnicodeEscape(n: nat): string
    requires n <= 0x10ffff
  {
    if n < 0x10000 then "\\u" + Hex4(n)
    else
      var m := n - 0x10000;
      "\\u" + Hex4(0xd800 + m / 0x400) + "\\u" + Hex4(0xdc00 + m % 0x400)
  }

  /** How `encode_basestring_ascii` writes one character. */
  function EscapeChar(c: char): string
  {
    var n := c as int;
    if c == '"' then "\\\""
    else if c == '\\' then "\\\\"
    else if n == 8 then "\\b"
    else if n == 12 then "\\f"
    else if c == '\n' then "\\n"
    else if c == '\r' then "\\r"
    else if c == '\t' then "\\t"
    else if ' ' <= c <= '~' then [c]
    else UnicodeEscape(n)
  }

  function Escape(s: string): string
  {
    if s == [] then [] else EscapeChar(s[0]) + Escape(s[1..])
  }

  /** A JSON string literal. */
  function Quote(s: string): string
  {
    "\"" + Escape(s) + "\""
  }

  function JoinWith(parts: seq<string>, sep: string): string
  {
    if parts == [] then ""
    else if |parts| == 1 then parts[0]
    else parts[0] + sep + JoinWith(parts[1..], sep)
  }

  function Dumps(v: Value): string
  {
    match v
    case Null => "null"
    case Bool(b) => if b then "true" else "false"
    case Int(i) => Text.IntToString(i)
    case Str(s) => Quote(s)
    case List(xs) =>
      "[" + JoinWith(seq(|xs|, i requires 0 <= i < |xs| => Dumps(xs[i])), ", ") + "]"
    case Obj(fs) =>
      "{" + JoinWith(seq(|fs|, i requires 0 <= i < |fs| => Quote(fs[i].0) + ": " + Dumps(fs[i].1)), ", ") + "}"
  }

  /** Printable ASCII: what `ensure_ascii` output is made of. */
  predicate Printable(s: string)
  {
    forall k :: 0 <= k < |s| ==> ' ' <= s[k] <= '~'
  }

  lemma PrintableConcat(a: string, b: string)
    requires Printable(a) && Printable(b)
    ensures Printable(a + b)
  {
    forall k | 0 <= k < |a + b| ensures ' ' <= (a + b)[k] <= '~' {
      if k >= |a| { assert (a + b)[k] == b[k - |a|]; }
    }
  }

  lemma Hex4Printable(n: nat)
    requires n < 0x10000
    ensures Printable(Hex4(n))
  {
    var digits := "0123456789abcdef";
    assert Printable(digits);
    var a, b, c, d := n / 0x1000, n / 0x100 % 16, n / 16 % 16, n % 16;
    assert a < 16 && b < 16 && c < 16 && d < 16;
    assert Hex4(n) == [digits[a], digits[b], digits[c], digits[d]];
  }

  /** The two halves of a surrogate pair are UTF-16 code units. */
  lemma SurrogatesInRange(m: nat)
    requires m < 0x100000
    ensures 0xd800 + m / 0x400 < 0x10000 && 0xdc00 + m % 0x400 < 0x10000
  {
  }

  lemma PairPrintable(h: nat, l: nat)
    requires h < 0x10000 && l < 0x10000
    ensures Printable("\\u" + Hex4(h) + "\\u" + Hex4(l))
  {
    assert Printable("\\u");
    Hex4Printable(h);
    Hex4Printable(l);
    PrintableConcat("\\u", Hex4(h));
    PrintableConcat("\\u" + Hex4(h), "\\u");
    PrintableConcat("\\u" + Hex4(h) + "\\u", Hex4(l));
  }

  lemma UnicodeEscapePrintable(n: nat)
    requires n <= 0x10ffff
    ensures Printable(UnicodeEscape(n))
  {
    if n < 0x10000 {
      assert Printable("\\u");
      Hex4Printable(n);
      PrintableConcat("\\u", Hex4(n));
    } else {
      SurrogatesInRange(n - 0x10000);
      PairPrintable(0xd800 + (n - 0x10000) / 0x400, 0xdc00 + (n - 0x10000) % 0x400);
    }
  }

  lemma EscapeCharPrintable(c: char)
    ensures Printable(EscapeChar(c))
  {
    if !(' ' <= c <= '~') {
      UnicodeEscapePrintable(c as int);
    }
  }

  lemma {:induction false} EscapePrintable(s: string)
    ensures Printable(Escape(s))
  {
    if s != [] {
      EscapePrintable(s[1..]);
      EscapeCharPrintable(s[0]);
      PrintableConcat(EscapeChar(s[0]), Escape(s[1..]));
    }
  }

  lemma {:induction false} JoinPrintable(parts: seq<string>, sep: string)
    requires Printable(sep)
    requires forall i :: 0 <= i < |parts| ==> Printable(parts[i])
    ensures Printable(JoinWith(parts, sep))
  {
    if |parts| > 1 {
      JoinPrintable(parts[1..], sep);
      PrintableConcat(parts[0], sep);
      PrintableConcat(parts[0] + sep, JoinWith(parts[1..], sep));
    }
  }

  /** Whatever it is given, `json.dumps` with `ensure_ascii` writes only
      printable ASCII: every other character is escaped. */
  lemma {:induction false} DumpsPrintable(v: Value)
    ensures Printable(Dumps(v))
  {
    match v
    case Null =>
    case Bool(_) =>
    case Int(i) =>
      var digits := Text.NatToString(if i < 0 then -i else i);
      assert Printable(digits);
      PrintableConcat("-", digits);
    case Str(s) =>
      EscapePrintable(s);
      PrintableConcat("\"", Escape(s));
      PrintableConcat("\"" + Escape(s), "\"");
    case List(xs) =>
      var parts := seq(|xs|, i requires 0 <= i < |xs| => Dumps(xs[i]));
      forall i | 0 <= i < |xs| ensures Printable(parts[i]) {
        DumpsPrintable(xs[i]);
      }
      JoinPrintable(parts, ", ");
      PrintableConcat("[", JoinWith(parts, ", "));
      PrintableConcat("[" + JoinWith(parts, ", "), "]");
    case Obj(fs) =>
      var parts := seq(|fs|, i requires 0 <= i < |fs| => Quote(fs[i].0) + ": " + Dumps(fs[i].1));
      forall i | 0 <= i < |fs| ensures Printable(parts[i]) {
        DumpsPrintable(fs[i].1);
        EscapePrintable(fs[i].0);
        PrintableConcat("\"", Escape(fs[i].0));
        PrintableConcat("\"" + Escape(fs[i].0), "\"");
        PrintableConcat(Quote(fs[i].0), ": ");
        PrintableConcat(Quote(fs[i].0) + ": ", Dumps(fs[i].1));
      }
      JoinPrintable(parts, ", ");
      PrintableConcat("{", JoinWith(parts, ", "));
      PrintableConcat("{" + JoinWith(parts, ", "), "}");
  }
}
