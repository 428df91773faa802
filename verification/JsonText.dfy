/** The length of text and values in ASCII-only compact JSON, as `json.dumps` with `ensure_ascii` prints them. */
module JsonText {
  import opened Utf8

  /** Characters one character takes in ASCII-only JSON (section 7 of RFC 8259). */
  function EscapedLength(c: char): nat {
    var n := c as int;
    if c == '"' || c == '\\' || n == 8 || n == 9 || n == 10 || n == 12 || n == 13 then 2
    else if n < 32 then 6
    else if n < 127 then 1
    else if n < 0x1_0000 then 6
    else 12
  }

  function TextLength(s: string): nat {
    if s == "" then 0 else EscapedLength(s[0]) + TextLength(s[1..])
  }

  /** Escaping costs at most six characters per UTF-8 byte. */
  lemma {:induction false} EscapingAtMostSixfold(s: string)
    ensures TextLength(s) <= 6 * |Encode(s)|
  {
    if s != "" {
      EscapingAtMostSixfold(s[1..]);
      assert EscapedLength(s[0]) <= 6 * |EncodeChar(s[0])|;
    }
  }

  lemma {:induction false} EscapingAtMostTwelvefold(s: string)
    ensures TextLength(s) <= 12 * |s|
  {
    if s != "" {
      EscapingAtMostTwelvefold(s[1..]);
    }
  }

  // ----- the length of a value -----

  /** A JSON value as it is printed on the wire: object entries in order, a float as its text. */
  datatype Wire =
    | JNull
    | JBool(flag: bool)
    | JInt(number: int)
    | JFloat(repr: string)
    | JString(text: string)
    | JArray(items: seq<Wire>)
    | JObject(entries: seq<Entry>)

  datatype Entry = Entry(key: string, value: Wire)

  function DigitCount(n: nat): nat {
    if n < 10 then 1 else 1 + DigitCount(n / 10)
  }

  /** The length of `json.dumps(v, separators=(",", ":"), ensure_ascii=True)`. */
  function JsonLength(v: Wire): nat {
    match v
    case JNull => 4
    case JBool(flag) => if flag then 4 else 5
    case JInt(n) => if n < 0 then 1 + DigitCount(-n) else DigitCount(n)
    case JFloat(repr) => |repr|
    case JString(s) => 2 + TextLength(s)
    case JArray(items) => 2 + ItemsLength(items)
    case JObject(entries) => 2 + EntriesLength(entries)
  }

  function ItemsLength(items: seq<Wire>): nat {
    if items == [] then 0
    else JsonLength(items[0]) + (if |items| == 1 then 0 else 1) + ItemsLength(items[1..])
  }

  function EntriesLength(entries: seq<Entry>): nat {
    if entries == [] then 0
    else 2 + TextLength(entries[0].key) + 1 + JsonLength(entries[0].value) + (if |entries| == 1 then 0 else 1)
         + EntriesLength(entries[1..])
  }

  function Power10(k: nat): nat {
    if k == 0 then 1 else 10 * Power10(k - 1)
  }

  lemma {:induction false} DigitCountBound(n: nat, k: nat)
    requires 0 < k && n < Power10(k)
    ensures DigitCount(n) <= k
    decreases k
  {
    if 10 <= n {
      DigitCountBound(n / 10, k - 1);
    }
  }

  lemma Power10Of19()
    ensures Power10(19) == 10_000_000_000_000_000_000
  {
    assert Power10(4) == 10_000;
    assert Power10(8) == 100_000_000;
    assert Power10(12) == 1_000_000_000_000;
    assert Power10(16) == 10_000_000_000_000_000;
  }

  const INT_BOUND: int := 0x8000_0000_0000_0000

  lemma IntLengthBound(n: int)
    requires -INT_BOUND < n < INT_BOUND
    ensures JsonLength(JInt(n)) <= 20
  {
    Power10Of19();
    DigitCountBound(if n < 0 then -n else n, 19);
  }

  function EntryLength(e: Entry): nat {
    3 + TextLength(e.key) + JsonLength(e.value)
  }

  lemma StringLength(s: string)
    ensures JsonLength(JString(s)) <= 2 + 12 * |s|
    ensures JsonLength(JString(s)) <= 2 + 6 * |Encode(s)|
  {
    EscapingAtMostTwelvefold(s);
    EscapingAtMostSixfold(s);
  }

  lemma ObjectLength(entries: seq<Entry>)
    ensures JsonLength(JObject(entries)) == 2 + EntriesLength(entries)
  {
  }

  /** Text without anything to escape. */
  lemma {:induction false} PlainLength(s: string)
    requires forall c | c in s :: EscapedLength(c) == 1
    ensures TextLength(s) == |s|
  {
    if s != "" {
      assert s[0] in s;
      PlainLength(s[1..]);
    }
  }

  lemma {:induction false} EntriesLengthConcat(a: seq<Entry>, b: seq<Entry>)
    ensures EntriesLength(a + b) == EntriesLength(a) + EntriesLength(b) + (if a == [] || b == [] then 0 else 1)
  {
    if a == [] {
      assert a + b == b;
    } else {
      EntriesLengthConcat(a[1..], b);
      assert (a + b)[1..] == a[1..] + b;
      assert b == [] ==> a + b == a;
    }
  }

  lemma OneEntry(e: Entry)
    ensures EntriesLength([e]) == EntryLength(e)
  {
    assert [e][1..] == [];
  }
}
