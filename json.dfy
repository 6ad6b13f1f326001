/** The JSON encoder: records of up to six named fields, ranges, integers
    and strings, appended to a text stream. Strings and field names are
    written between double quotes exactly as they are, with no escaping. */
module Json {
  import opened Outcomes
  import opened Http
  import opened Decimal
  import opened Wire
  import Responses

  /** A value the encoder accepts: an integral field, a string-convertible
      field, a record (its fields in the order of its key names) or a
      range. */
  datatype Value =
    | Number(n: int)
    | Text(s: seq<char>)
    | Record(fields: seq<Field>)
    | Range(items: seq<Value>)

  /** One record member: its key name and its value. */
  datatype Field = Field(name: seq<char>, value: Value)

  /** The largest record the encoder writes members for. */
  const RecordArity := 6

  /** The text of a value. A record with a number of fields other than 1
      to 6 is written as "{}". */
  function Encode(v: Value): (r: seq<char>)
    decreases v
    ensures |r| >= 1
    ensures v.Number? <==> r[0] == '-' || IsDigit(r[0])
    ensures r[0] != ']' && r[0] != '}' && r[0] != ','
  {
    match v
    case Number(n) => IntTextRoundTrip(n); IntText(n)
    case Text(s) => "\"" + s + "\""
    case Record(fields) => "{" + (if 1 <= |fields| <= RecordArity then Pairs(fields) else []) + "}"
    case Range(items) => "[" + Elements(items) + "]"
  }

  /** One member of a record: the quoted key, a colon and the value. */
  function Pair(f: Field): seq<char>
    decreases f
  {
    "\"" + f.name + "\":" + Encode(f.value)
  }

  /** The members of a record, separated by commas. */
  function Pairs(fields: seq<Field>): seq<char>
    decreases fields
  {
    if |fields| == 0 then []
    else if |fields| == 1 then Pair(fields[0])
    else Pair(fields[0]) + "," + Pairs(fields[1..])
  }

  /** The elements of a range, separated by commas. */
  function Elements(items: seq<Value>): seq<char>
    decreases items
  {
    if |items| == 0 then []
    else if |items| == 1 then Encode(items[0])
    else Encode(items[0]) + "," + Elements(items[1..])
  }

  /** Adding a member at the end adds a comma and the member. */
  lemma {:induction false} PairsSnoc(fields: seq<Field>, last: Field)
    requires |fields| >= 1
    ensures Pairs(fields + [last]) == Pairs(fields) + "," + Pair(last)
    decreases |fields|
  {
    var all := fields + [last];
    assert all[1..] == fields[1..] + [last];
    if |fields| >= 2 {
      PairsSnoc(fields[1..], last);
    }
  }

  /** Adding an element at the end adds a comma and the element. */
  lemma {:induction false} ElementsSnoc(items: seq<Value>, last: Value)
    requires |items| >= 1
    ensures Elements(items + [last]) == Elements(items) + "," + Encode(last)
    decreases |items|
  {
    var all := items + [last];
    assert all[1..] == items[1..] + [last];
    if |items| >= 2 {
      ElementsSnoc(items[1..], last);
    }
  }

  /** The text stream the encoder appends to. */
  class Sink {
    var text: seq<char>

    constructor ()
      ensures text == []
    {
      text := [];
    }

    /** Appends one piece; `written` is what the caller has appended since
        `start`. */
    method Put(piece: seq<char>, ghost start: seq<char>, ghost written: seq<char>)
      requires text == start + written
      modifies this
      ensures text == start + (written + piece)
    {
      text := text + piece;
      AppendTwice(start, written, piece);
    }
  }

  /** Writes a field of a record or an element of a range: an integer in
      decimal, a string between quotes, anything else through Serialize. */
  method SerializeField(sink: Sink, v: Value)
    modifies sink
    ensures sink.text == old(sink.text) + Encode(v)
    decreases v, 1
  {
    ghost var start := sink.text;
    match v
    case Number(n) =>
      sink.Put(IntText(n), start, []);
    case Text(s) =>
      sink.Put("\"", start, []);
      sink.Put(s, start, "\"");
      sink.Put("\"", start, "\"" + s);
    case Record(_) =>
      Serialize(sink, v);
    case Range(_) =>
      Serialize(sink, v);
  }

  /** Writes one member of a record. */
  method SerializePair(sink: Sink, f: Field)
    modifies sink
    ensures sink.text == old(sink.text) + Pair(f)
    decreases f
  {
    ghost var start := sink.text;
    sink.Put("\"", start, []);
    sink.Put(f.name, start, "\"");
    sink.Put("\":", start, "\"" + f.name);
    ghost var written := "\"" + f.name + "\":";
    SerializeField(sink, f.value);
    AppendTwice(start, written, Encode(f.value));
  }

  /** Writes a record or a range, whichever `v` is. */
  method Serialize(sink: Sink, v: Value)
    requires v.Record? || v.Range?
    modifies sink
    ensures sink.text == old(sink.text) + Encode(v)
    decreases v, 0
  {
    if v.Record? {
      SerializeRecord(sink, v.fields);
    } else {
      SerializeRange(sink, v.items);
    }
  }

  /** Writes a record: "{", its members separated by commas when it has 1
      to 6 of them, and "}". */
  method SerializeRecord(sink: Sink, fields: seq<Field>)
    modifies sink
    ensures sink.text == old(sink.text) + Encode(Record(fields))
    decreases fields, 1
  {
    ghost var start := sink.text;
    sink.Put("{", start, []);
    if 1 <= |fields| <= RecordArity {
      for k := 0 to |fields|
        invariant sink.text == start + ("{" + Pairs(fields[..k]))
      {
        AppendPair(sink, fields, k, start);
      }
      assert fields[..|fields|] == fields;
    }
    sink.Put("}", start, "{" + (if 1 <= |fields| <= RecordArity then Pairs(fields) else []));
  }

  /** Writes member k of a record after the k before it: a comma unless it
      is the first, then the member. */
  method AppendPair(sink: Sink, fields: seq<Field>, k: nat, ghost start: seq<char>)
    requires k < |fields|
    requires sink.text == start + ("{" + Pairs(fields[..k]))
    modifies sink
    ensures sink.text == start + ("{" + Pairs(fields[..k + 1]))
    decreases fields, 0
  {
    ghost var written := "{" + Pairs(fields[..k]);
    if k > 0 {
      sink.Put(",", start, written);
      written := written + ",";
    }
    SerializePair(sink, fields[k]);
    AppendTwice(start, written, Pair(fields[k]));
    assert fields[..k + 1] == fields[..k] + [fields[k]];
    if k > 0 {
      PairsSnoc(fields[..k], fields[k]);
    }
  }

  /** Writes a range: "[", its elements separated by commas, and "]". */
  method SerializeRange(sink: Sink, items: seq<Value>)
    modifies sink
    ensures sink.text == old(sink.text) + Encode(Range(items))
    decreases items, 1
  {
    ghost var start := sink.text;
    sink.Put("[", start, []);
    var k := 0;
    while k < |items|
      invariant k <= |items|
      invariant sink.text == start + ("[" + Elements(items[..k]))
    {
      AppendElement(sink, items, k, start);
      k := k + 1;
    }
    assert items[..|items|] == items;
    sink.Put("]", start, "[" + Elements(items));
  }

  /** Writes element k of a range after the k before it: a comma unless it
      is the first, then the element. */
  method AppendElement(sink: Sink, items: seq<Value>, k: nat, ghost start: seq<char>)
    requires k < |items|
    requires sink.text == start + ("[" + Elements(items[..k]))
    modifies sink
    ensures sink.text == start + ("[" + Elements(items[..k + 1]))
    decreases items, 0
  {
    if k == 0 {
      assert "[" + Elements(items[..0]) == "[";
      SerializeField(sink, items[0]);
      AppendTwice(start, "[", Encode(items[0]));
      assert items[..1] == [items[0]];
    } else {
      ghost var written := "[" + Elements(items[..k]);
      sink.Put(",", start, written);
      SerializeField(sink, items[k]);
      AppendTwice(start, written + ",", Encode(items[k]));
      assert items[..k + 1] == items[..k] + [items[k]];
      ElementsSnoc(items[..k], items[k]);
    }
  }

  /** The end of the run of digits starting at j. */
  function DigitEnd(w: seq<char>, j: nat): (k: nat)
    requires j <= |w|
    ensures j <= k <= |w|
    ensures forall q :: j <= q < k ==> IsDigit(w[q])
    ensures k < |w| ==> !IsDigit(w[k])
    decreases |w| - j
  {
    if j == |w| || !IsDigit(w[j]) then j else DigitEnd(w, j + 1)
  }

  /** Reads an integer at i: an optional '-' and at least one digit. */
  function ParseNumber(w: seq<char>, i: nat): (r: Option<(Value, nat)>)
    requires i < |w|
    ensures r.Some? ==> i < r.value.1 <= |w|
  {
    var start := if w[i] == '-' then i + 1 else i;
    var k := DigitEnd(w, start);
    if k == start then None
    else
      assert AllDigits(w[start..k]);
      assert w[i] == '-' ==> w[i..k][1..] == w[start..k];
      Some((Number(ParseInt(w[i..k])), k))
  }

  /** A reader for the encoder's output: the value that starts at i and
      the position just after it. A string runs to the next '"'. */
  function Parse(w: seq<char>, i: nat): (r: Option<(Value, nat)>)
    requires i <= |w|
    ensures r.Some? ==> i < r.value.1 <= |w|
    decreases |w| - i, 0
  {
    if i == |w| then None
    else if w[i] == '"' then
      var k := Scan(w, i + 1, {'"'});
      if k < |w| then Some((Text(w[i + 1..k]), k + 1)) else None
    else if w[i] == '[' then
      if i + 1 < |w| && w[i + 1] == ']' then Some((Range([]), i + 2)) else ParseItems(w, i + 1, [])
    else if w[i] == '{' then
      if i + 1 < |w| && w[i + 1] == '}' then Some((Record([]), i + 2)) else ParseFields(w, i + 1, [])
    else ParseNumber(w, i)
  }

  /** Reads the elements of a range from j on, after the ones in `acc`,
      up to and including the closing ']'. */
  function ParseItems(w: seq<char>, j: nat, acc: seq<Value>): (r: Option<(Value, nat)>)
    requires j <= |w|
    ensures r.Some? ==> j < r.value.1 <= |w|
    decreases |w| - j, 1
  {
    match Parse(w, j)
    case None => None
    case Some((v, k)) =>
      if k < |w| && w[k] == ',' then ParseItems(w, k + 1, acc + [v])
      else if k < |w| && w[k] == ']' then Some((Range(acc + [v]), k + 1))
      else None
  }

  /** Reads one member at j: a quoted key, ':' and a value. The member
      and the position just after its value. */
  function ParseMember(w: seq<char>, j: nat): (r: Option<(Field, nat)>)
    requires j <= |w|
    ensures r.Some? ==> j < r.value.1 <= |w|
    decreases |w| - j, 0
  {
    if j == |w| || w[j] != '"' then None
    else
      var k := Scan(w, j + 1, {'"'});
      if k + 1 >= |w| || w[k + 1] != ':' then None
      else match Parse(w, k + 2)
        case None => None
        case Some((v, m)) => Some((Field(w[j + 1..k], v), m))
  }

  /** Reads the members of a record from j on, after the ones in `acc`,
      up to and including the closing '}'. */
  function ParseFields(w: seq<char>, j: nat, acc: seq<Field>): (r: Option<(Value, nat)>)
    requires j <= |w|
    ensures r.Some? ==> j < r.value.1 <= |w|
    decreases |w| - j, 1
  {
    match ParseMember(w, j)
    case None => None
    case Some((f, m)) =>
      if m < |w| && w[m] == ',' then ParseFields(w, m + 1, acc + [f])
      else if m < |w| && w[m] == '}' then Some((Record(acc + [f]), m + 1))
      else None
  }

  /** The whole text is one value. */
  function Decode(w: seq<char>): (r: Option<Value>)
  {
    match Parse(w, 0)
    case Some((v, k)) => if k == |w| then Some(v) else None
    case None => None
  }

  /** Values whose text reads back: no '"' inside a string or a key name,
      and no record with more members than the encoder writes. */
  predicate Plain(v: Value)
    decreases v
  {
    match v
    case Number(_) => true
    case Text(s) => '"' !in s
    case Record(fields) =>
      |fields| <= RecordArity
      && forall k :: 0 <= k < |fields| ==> '"' !in fields[k].name && Plain(fields[k].value)
    case Range(items) => forall k :: 0 <= k < |items| ==> Plain(items[k])
  }

  /** `s` occurs in w at i, one character at a time. */
  predicate At(w: seq<char>, i: nat, s: seq<char>)
    decreases |s|
  {
    i + |s| <= |w| && (|s| == 0 || (w[i] == s[0] && At(w, i + 1, s[1..])))
  }

  lemma {:induction false} AtConcat(w: seq<char>, i: nat, a: seq<char>, b: seq<char>)
    ensures At(w, i, a + b) <==> At(w, i, a) && At(w, i + |a|, b)
    decreases |a|
  {
    if |a| == 0 {
      assert a + b == b;
    } else {
      assert (a + b)[0] == a[0];
      assert (a + b)[1..] == a[1..] + b;
      AtConcat(w, i + 1, a[1..], b);
    }
  }

  lemma AtChar(w: seq<char>, i: nat, c: char)
    ensures At(w, i, [c]) <==> i < |w| && w[i] == c
  {
    assert [c][1..] == [];
  }

  /** What occurs at i is the slice of w from i. */
  lemma {:induction false} AtSlice(w: seq<char>, i: nat, s: seq<char>)
    requires At(w, i, s)
    ensures i + |s| <= |w| && w[i..i + |s|] == s
    decreases |s|
  {
    if |s| > 0 {
      AtSlice(w, i + 1, s[1..]);
      assert w[i + 1..i + |s|] == s[1..];
      assert w[i..i + |s|] == [w[i]] + w[i + 1..i + |s|];
      assert s == [s[0]] + s[1..];
    }
  }

  /** The rest of w from i occurs at i. */
  lemma {:induction false} AtRest(w: seq<char>, i: nat)
    requires i <= |w|
    ensures At(w, i, w[i..])
    decreases |w| - i
  {
    if i < |w| {
      assert w[i..][1..] == w[i + 1..];
      AtRest(w, i + 1);
    }
  }

  /** Nothing after position k extends a number that ends there. */
  predicate Delimited(w: seq<char>, k: nat)
  {
    k <= |w| && (k == |w| || !IsDigit(w[k]))
  }

  lemma {:induction false} DigitEndAt(w: seq<char>, j: nat, digits: seq<char>)
    requires At(w, j, digits) && AllDigits(digits) && Delimited(w, j + |digits|)
    ensures DigitEnd(w, j) == j + |digits|
    decreases |digits|
  {
    if |digits| > 0 {
      assert IsDigit(digits[0]);
      assert AllDigits(digits[1..]) by {
        forall q | 0 <= q < |digits| - 1 ensures IsDigit(digits[1..][q]) {
          assert digits[1..][q] == digits[q + 1];
        }
      }
      DigitEndAt(w, j + 1, digits[1..]);
    }
  }

  /** A '-' or a digit starts a number. */
  lemma ParseSigned(w: seq<char>, i: nat)
    requires i < |w| && (w[i] == '-' || IsDigit(w[i]))
    ensures Parse(w, i) == ParseNumber(w, i)
  {
  }

  /** After an element, a ',' continues the list and a ']' closes it. */
  lemma ItemsStep(w: seq<char>, j: nat, acc: seq<Value>, v: Value, k: nat)
    requires j <= |w| && Parse(w, j) == Some((v, k))
    ensures k < |w| && w[k] == ',' ==> ParseItems(w, j, acc) == ParseItems(w, k + 1, acc + [v])
    ensures k < |w| && w[k] == ']' ==> ParseItems(w, j, acc) == Some((Range(acc + [v]), k + 1))
  {
  }

  /** After a member, a ',' continues the record and a '}' closes it. */
  lemma FieldsStep(w: seq<char>, j: nat, acc: seq<Field>, f: Field, m: nat)
    requires j <= |w| && ParseMember(w, j) == Some((f, m))
    ensures m < |w| && w[m] == ',' ==> ParseFields(w, j, acc) == ParseFields(w, m + 1, acc + [f])
    ensures m < |w| && w[m] == '}' ==> ParseFields(w, j, acc) == Some((Record(acc + [f]), m + 1))
  {
  }

  /** An integer's text reads back as the integer. */
  lemma NumberAt(n: int, w: seq<char>, i: nat)
    requires At(w, i, IntText(n)) && Delimited(w, i + |IntText(n)|)
    ensures Parse(w, i) == Some((Number(n), i + |IntText(n)|))
  {
    var t := IntText(n);
    IntTextRoundTrip(n);
    AtSlice(w, i, t);
    NumberDigitsAt(n, w, i);
    ParseSigned(w, i);
  }

  /** The digits of an integer's text, after its sign, run to the end of
      the text. */
  lemma NumberDigitsAt(n: int, w: seq<char>, i: nat)
    requires At(w, i, IntText(n)) && Delimited(w, i + |IntText(n)|)
    ensures i < |w| && (w[i] == '-' <==> n < 0) && (w[i] == '-' || IsDigit(w[i]))
    ensures DigitEnd(w, if w[i] == '-' then i + 1 else i) == i + |IntText(n)|
  {
    if n < 0 {
      AtConcat(w, i, ['-'], NatText(-n));
      DigitEndAt(w, i + 1, NatText(-n));
    } else {
      DigitEndAt(w, i, IntText(n));
    }
  }

  /** A quoted string with no '"' inside reads back as itself. */
  lemma TextAt(s: seq<char>, w: seq<char>, i: nat)
    requires '"' !in s && At(w, i, Encode(Text(s)))
    ensures Parse(w, i) == Some((Text(s), i + |Encode(Text(s))|))
  {
    AtConcat(w, i, "\"" + s, "\"");
    AtConcat(w, i, "\"", s);
    AtChar(w, i, '"');
    AtChar(w, i + 1 + |s|, '"');
    AtSlice(w, i + 1, s);
    ScanAcross(w, i + 1, s, {'"'});
  }

  /** The text of a value that reads back, followed by anything that does
      not extend a number, reads back as the value. */
  lemma {:induction false} ParseEncoded(v: Value, w: seq<char>, i: nat)
    requires Plain(v) && At(w, i, Encode(v)) && Delimited(w, i + |Encode(v)|)
    ensures Parse(w, i) == Some((v, i + |Encode(v)|))
    decreases v, 2
  {
    match v
    case Number(n) =>
      NumberAt(n, w, i);
    case Text(s) =>
      TextAt(s, w, i);
    case Range(items) =>
      RangeAt(items, w, i);
    case Record(fields) =>
      RecordAt(fields, w, i);
  }

  /** The first character of a text that occurs at i is at i. */
  lemma AtHead(w: seq<char>, i: nat, s: seq<char>)
    requires At(w, i, s) && |s| >= 1
    ensures w[i] == s[0]
  {
  }

  /** A '[' or '{' that is not closed at once starts a list of elements
      or members. */
  lemma ParseOpens(w: seq<char>, i: nat)
    requires i + 1 < |w|
    ensures w[i] == '[' && w[i + 1] != ']' ==> Parse(w, i) == ParseItems(w, i + 1, [])
    ensures w[i] == '{' && w[i + 1] != '}' ==> Parse(w, i) == ParseFields(w, i + 1, [])
  {
  }

  /** A range's text reads back as the range. */
  lemma {:induction false} RangeAt(items: seq<Value>, w: seq<char>, i: nat)
    requires forall k :: 0 <= k < |items| ==> Plain(items[k])
    requires At(w, i, Encode(Range(items)))
    ensures Parse(w, i) == Some((Range(items), i + |Encode(Range(items))|))
    decreases items, 1
  {
    var e := Elements(items);
    AtConcat(w, i, "[" + e, "]");
    AtConcat(w, i, "[", e);
    AtChar(w, i, '[');
    if |items| == 0 {
      AtChar(w, i + 1, ']');
    } else {
      AtConcat(w, i + 1, e, "]");
      ElementsStart(items);
      AtHead(w, i + 1, e);
      ParseOpens(w, i);
      ParseItemsEncoded(items, w, i + 1, []);
      assert [] + items == items;
    }
  }

  /** A record's text reads back as the record, when it has at most six
      members and its keys hold no '"'. */
  lemma {:induction false} RecordAt(fields: seq<Field>, w: seq<char>, i: nat)
    requires |fields| <= RecordArity
    requires forall k :: 0 <= k < |fields| ==> '"' !in fields[k].name && Plain(fields[k].value)
    requires At(w, i, Encode(Record(fields)))
    ensures Parse(w, i) == Some((Record(fields), i + |Encode(Record(fields))|))
    decreases fields, 1
  {
    var e := Pairs(fields);
    AtConcat(w, i, "{" + e, "}");
    AtConcat(w, i, "{", e);
    AtChar(w, i, '{');
    if |fields| == 0 {
      AtChar(w, i + 1, '}');
    } else {
      AtConcat(w, i + 1, e, "}");
      PairsStart(fields);
      AtHead(w, i + 1, e);
      ParseOpens(w, i);
      ParseFieldsEncoded(fields, w, i + 1, []);
      assert [] + fields == fields;
    }
  }

  /** A non-empty list of elements starts with its first element's text. */
  lemma ElementsStart(items: seq<Value>)
    requires |items| >= 1
    ensures |Elements(items)| >= 1 && Elements(items)[0] == Encode(items[0])[0]
  {
  }

  /** A non-empty list of members starts with a quote. */
  lemma PairsStart(fields: seq<Field>)
    requires |fields| >= 1
    ensures |Pairs(fields)| >= 1 && Pairs(fields)[0] == '"'
  {
  }

  /** The elements of a range and its closing ']' read back, after `acc`. */
  lemma {:induction false} ParseItemsEncoded(items: seq<Value>, w: seq<char>, j: nat, acc: seq<Value>)
    requires |items| >= 1 && forall k :: 0 <= k < |items| ==> Plain(items[k])
    requires At(w, j, Elements(items) + "]")
    ensures ParseItems(w, j, acc) == Some((Range(acc + items), j + |Elements(items)| + 1))
    decreases items, 0
  {
    var head := Encode(items[0]);
    ElementsSplit(items, w, j);
    ParseEncoded(items[0], w, j);
    ItemsStep(w, j, acc, items[0], j + |head|);
    if |items| == 1 {
      assert acc + [items[0]] == acc + items;
    } else {
      ParseItemsEncoded(items[1..], w, j + |head| + 1, acc + [items[0]]);
      assert acc + [items[0]] + items[1..] == acc + items;
    }
  }

  /** The joined elements and a closing ']' are the first element's text,
      then ']' for the last element, or ',' and the rest. */
  lemma ElementsSplit(items: seq<Value>, w: seq<char>, j: nat)
    requires |items| >= 1
    requires At(w, j, Elements(items) + "]")
    ensures var k := j + |Encode(items[0])|; At(w, j, Encode(items[0])) && k < |w| && Delimited(w, k)
    ensures |items| == 1 ==> var k := j + |Encode(items[0])|;
      w[k] == ']' && |Elements(items)| == |Encode(items[0])|
    ensures |items| > 1 ==> var k := j + |Encode(items[0])|;
      w[k] == ',' && At(w, k + 1, Elements(items[1..]) + "]")
      && |Elements(items)| == |Encode(items[0])| + 1 + |Elements(items[1..])|
  {
    var head := Encode(items[0]);
    if |items| == 1 {
      AtConcat(w, j, head, "]");
      AtChar(w, j + |head|, ']');
    } else {
      var rest := Elements(items[1..]);
      AtConcat(w, j, head + "," + rest, "]");
      AtConcat(w, j, head + ",", rest);
      AtConcat(w, j, head, ",");
      AtChar(w, j + |head|, ',');
      AtConcat(w, j + |head| + 1, rest, "]");
    }
  }

  /** The members of a record and its closing '}' read back, after `acc`. */
  lemma {:induction false} ParseFieldsEncoded(fields: seq<Field>, w: seq<char>, j: nat, acc: seq<Field>)
    requires |fields| >= 1
    requires forall k :: 0 <= k < |fields| ==> '"' !in fields[k].name && Plain(fields[k].value)
    requires At(w, j, Pairs(fields) + "}")
    ensures ParseFields(w, j, acc) == Some((Record(acc + fields), j + |Pairs(fields)| + 1))
    decreases fields, 0
  {
    var f := fields[0];
    var pair := Pair(f);
    if |fields| == 1 {
      AtConcat(w, j, pair, "}");
      AtChar(w, j + |pair|, '}');
      MemberAt(f, w, j);
      FieldsStep(w, j, acc, f, j + |pair|);
      assert acc + [f] == acc + fields;
    } else {
      var rest := Pairs(fields[1..]);
      AtConcat(w, j, pair + "," + rest, "}");
      AtConcat(w, j, pair + ",", rest);
      AtConcat(w, j, pair, ",");
      AtChar(w, j + |pair|, ',');
      MemberAt(f, w, j);
      FieldsStep(w, j, acc, f, j + |pair|);
      AtConcat(w, j + |pair| + 1, rest, "}");
      ParseFieldsEncoded(fields[1..], w, j + |pair| + 1, acc + [f]);
      assert acc + [f] + fields[1..] == acc + fields;
    }
  }

  /** A member's text, followed by a byte that does not extend a number,
      reads back as the member. */
  lemma {:induction false} MemberAt(f: Field, w: seq<char>, j: nat)
    requires '"' !in f.name && Plain(f.value)
    requires At(w, j, Pair(f)) && Delimited(w, j + |Pair(f)|)
    ensures ParseMember(w, j) == Some((f, j + |Pair(f)|))
    decreases f, 3
  {
    KeyAt(f, w, j);
    ParseEncoded(f.value, w, j + 3 + |f.name|);
  }

  /** A member's quoted key and colon read back as the key, and its value
      follows them. */
  lemma KeyAt(f: Field, w: seq<char>, j: nat)
    requires '"' !in f.name && At(w, j, Pair(f))
    ensures var k := j + 1 + |f.name|;
      j < |w| && w[j] == '"' && Scan(w, j + 1, {'"'}) == k && k + 1 < |w| && w[k + 1] == ':'
      && w[j + 1..k] == f.name && At(w, k + 2, Encode(f.value))
      && |Pair(f)| == |f.name| + 3 + |Encode(f.value)|
  {
    var key := "\"" + f.name + "\":";
    AtConcat(w, j, key, Encode(f.value));
    AtConcat(w, j, "\"" + f.name, "\":");
    AtConcat(w, j, "\"", f.name);
    AtConcat(w, j + 1 + |f.name|, ['"'], [':']);
    AtChar(w, j + 1 + |f.name|, '"');
    AtChar(w, j + 2 + |f.name|, ':');
    AtSlice(w, j + 1, f.name);
    ScanAcross(w, j + 1, f.name, {'"'});
  }

  /** Decoding the text of a value that reads back gives the value. */
  lemma RoundTrip(v: Value)
    requires Plain(v)
    ensures Decode(Encode(v)) == Some(v)
  {
    var w := Encode(v);
    AtRest(w, 0);
    assert w[0..] == w;
    ParseEncoded(v, w, 0);
  }

  /** A record is written as "{}" exactly when it has no members or more
      than six: the members of a larger record are dropped. */
  lemma RecordArityRule(fields: seq<Field>)
    ensures Encode(Record(fields)) == "{}" <==> |fields| == 0 || |fields| > RecordArity
  {
    if 1 <= |fields| <= RecordArity {
      PairsStart(fields);
      assert Encode(Record(fields))[1] == '"';
    }
  }

  /** A range is written as "[]" exactly when it is empty. */
  lemma EmptyRange(items: seq<Value>)
    ensures Encode(Range(items)) == "[]" <==> items == []
  {
    if items != [] {
      ElementsStart(items);
      assert Encode(Range(items))[1] == Encode(items[0])[0];
    }
  }

  /** Without escaping, a string holding '","' is written exactly as two
      strings are: the text alone does not tell the two ranges apart. */
  lemma UnescapedQuoteAmbiguous()
    ensures Range([Text("a\",\"b")]) != Range([Text("a"), Text("b")])
    ensures Encode(Range([Text("a\",\"b")])) == Encode(Range([Text("a"), Text("b")]))
  {
    assert Elements([Text("a"), Text("b")]) == Encode(Text("a")) + "," + Encode(Text("b"));
  }

  /** The body of a json::From response: the record or range as Serialize
      prints it, typed application/json and measured after printing. */
  function FromBody(v: Value): (b: Responses.Body)
    requires v.Record? || v.Range?
    ensures b.Unsized? && b.contentType == ApplicationJson
    ensures Plain(v) ==> Decode(b.printed) == Some(v)
  {
    if Plain(v) then RoundTrip(v); Responses.Unsized(ApplicationJson, Encode(v))
    else Responses.Unsized(ApplicationJson, Encode(v))
  }

  /** The media type line of a JSON body. */
  lemma JsonTypeLine()
    ensures TypeLine(ApplicationJson) == "Content-Type: application/json\r\n"
  {
  }

  /** Three pieces appended after a head are the end of the text. */
  lemma EndsWithLast3(head: seq<char>, x: seq<char>, y: seq<char>, z: seq<char>)
    ensures EndsWith(head + x + y + z, x + y + z)
  {
    var text := head + x + y + z;
    assert text == head + (x + y + z);
    assert text[|head|..] == x + y + z;
  }

  /** The text of a send whose body is a JSON value. */
  lemma FromText(r: Responses.Outgoing, v: Value, defaults: seq<char>)
    requires (v.Record? || v.Range?) && r.body == FromBody(v)
    ensures Responses.SendText(r, defaults)
      == Responses.SendStatus(r) + defaults + TypeLine(ApplicationJson) + LengthLine(|Encode(v)|) + Encode(v)
  {
  }

  /** Sending a json::From response announces application/json and frames
      exactly the encoded value; a client that reads the framed body and
      decodes it gets the value back when it reads back at all. */
  lemma FromResponseReadsBack(v: Value, code: int, headerLine: seq<char>, defaults: seq<char>)
    requires v.Record? || v.Range?
    ensures var text := Responses.SendText(Responses.Outgoing(code, headerLine, FromBody(v)), defaults);
      FramedBody(text, Encode(v), |Encode(v)|)
      && EndsWith(text, TypeLine(ApplicationJson) + LengthLine(|Encode(v)|) + Encode(v))
      && TypeLine(ApplicationJson) == "Content-Type: application/json\r\n"
      && (Plain(v) ==> Decode(Encode(v)) == Some(v))
  {
    var r := Responses.Outgoing(code, headerLine, FromBody(v));
    Responses.UnsizedFramed(r, defaults);
    FromText(r, v, defaults);
    EndsWithLast3(Responses.SendStatus(r) + defaults, TypeLine(ApplicationJson), LengthLine(|Encode(v)|), Encode(v));
    JsonTypeLine();
    if Plain(v) {
      RoundTrip(v);
    }
  }
}
