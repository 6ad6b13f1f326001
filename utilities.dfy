/** Helpers of the wire engine: the request-method classifier and the
    pieces of the Date header. */
module Utilities {
  import opened Outcomes
  import opened Http
  import opened Decimal
  import ContentTypes

  /** A classified method and how far the cursor moves past its keyword. */
  datatype Classified = Classified(kind: RequestType, advance: nat)

  /** Classifies a request method from the first byte of the request line
      and, only when that byte is 'P', the second one. The advance is the
      keyword's length plus its trailing space; the keyword itself is not
      compared further. */
  function GetType(first: char, second: char): (r: Result<Classified>)
    ensures r.Ok? ==> r.value.advance == |Keyword(r.value.kind)| + 1 <= 8
    ensures r.Ok? ==> Keyword(r.value.kind)[0] == first
    ensures r.Ok? && first == 'P' ==> Keyword(r.value.kind)[1] == second
    ensures r.Err? ==> r.fault == BadRequestType
  {
    match first
    case 'G' => Ok(Classified(GET, 4))
    case 'H' => Ok(Classified(HEAD, 5))
    case 'P' =>
      (match second
       case 'O' => Ok(Classified(POST, 5))
       case 'U' => Ok(Classified(PUT, 4))
       case 'A' => Ok(Classified(PATCH, 6))
       case _ => Err(BadRequestType))
    case 'D' => Ok(Classified(DELETE, 7))
    case 'C' => Ok(Classified(CONNECT, 8))
    case 'O' => Ok(Classified(OPTIONS, 8))
    case 'T' => Ok(Classified(TRACE, 6))
    case _ => Err(BadRequestType)
  }

  /** Every method's own keyword is classified as that method, and the
      cursor lands just past the keyword's trailing space. */
  lemma GetTypeRecognisesKeyword(t: RequestType)
    ensures |Keyword(t)| >= 3
    ensures GetType(Keyword(t)[0], Keyword(t)[1]) == Ok(Classified(t, |Keyword(t)| + 1))
  {
  }

  /** Only the first byte matters, unless it is 'P'. */
  lemma GetTypeIgnoresSecondByte(first: char, x: char, y: char)
    requires first != 'P'
    ensures GetType(first, x) == GetType(first, y)
  {
  }

  /** Exactly the unknown first bytes, and 'P' before anything other than
      'O', 'U' or 'A', are rejected. */
  lemma GetTypeRejects(first: char, second: char)
    ensures GetType(first, second).Err? <==>
      (first !in {'G', 'H', 'P', 'D', 'C', 'O', 'T'} || (first == 'P' && second !in {'O', 'U', 'A'}))
  {
  }

  /** Later bytes are never checked: "GXX " classifies as GET. */
  lemma GetTypeTrustsFirstByte()
    ensures GetType('G', 'X') == Ok(Classified(GET, 4))
  {
  }

  /** Day names in the order of RFC 7231 section 7.1.1.1, indexed like the
      C library's tm_wday (Sunday is 0). */
  function ImfDayName(wday: int): seq<char>
    requires 0 <= wday < 7
  {
    ["Sun", "Mon", "Tue", "Wed", "Thu", "Fri", "Sat"][wday]
  }

  /** The weekday text of the Date header. Index 0 prints "Mon". */
  function Weekday(wday: int): (s: seq<char>)
    requires 0 <= wday < 7
    ensures |s| == 3
  {
    match wday
    case 0 => "Mon"
    case 1 => "Tue"
    case 2 => "Wed"
    case 3 => "Thu"
    case 4 => "Fri"
    case 5 => "Sat"
    case 6 => "Sun"
  }

  /** Because the table starts at Monday while tm_wday starts at Sunday,
      the printed name is always that of the following day. */
  lemma WeekdayNamesNextDay(wday: int)
    requires 0 <= wday < 7
    ensures Weekday(wday) == ImfDayName((wday + 1) % 7)
  {
  }

  /** The month text of the Date header, January first. */
  function Month(mon: int): (s: seq<char>)
    requires 0 <= mon < 12
    ensures |s| == 3
  {
    match mon
    case 0 => "Jan"
    case 1 => "Feb"
    case 2 => "Mar"
    case 3 => "Apr"
    case 4 => "May"
    case 5 => "Jun"
    case 6 => "Jul"
    case 7 => "Aug"
    case 8 => "Sep"
    case 9 => "Oct"
    case 10 => "Nov"
    case 11 => "Dec"
  }

  /** Distinct months print distinct names, so a reader recovers the month. */
  lemma MonthInjective(a: int, b: int)
    requires 0 <= a < 12 && 0 <= b < 12
    ensures Month(a) == Month(b) ==> a == b
  {
  }

  /** The header-local media-type names, defined for HTML and JSON only;
      they agree with the full table. */
  function LocalMimeName(t: ContentType): (s: seq<char>)
    requires t == TextHtml || t == ApplicationJson
    ensures s == ContentTypes.MimeName(t)
  {
    match t
    case TextHtml => "text/html"
    case ApplicationJson => "application/json"
  }

  /** Two-character formatting of a date field: a '0' before values below ten. */
  function Fmt2Int(v: int): (s: seq<char>)
    ensures v >= 0 ==> |s| >= 2 && AllDigits(s) && Value(s) == v
  {
    if v < 10 then
      var s := "0" + IntText(v);
      assert v >= 0 ==> s[..|s| - 1] == "0";
      s
    else IntText(v)
  }

  /** For 0 <= v < 100 the field is exactly two digits denoting v. */
  lemma Fmt2IntTwoDigits(v: int)
    requires 0 <= v < 100
    ensures |Fmt2Int(v)| == 2 && AllDigits(Fmt2Int(v)) && Value(Fmt2Int(v)) == v
  {
    var s := Fmt2Int(v);
    if v < 10 {
      assert s == ['0', DigitChar(v)];
      assert s[..1] == ['0'];
    } else {
      assert s == NatText(v) == NatText(v / 10) + [DigitChar(v % 10)];
      assert s[..1] == NatText(v / 10) == [DigitChar(v / 10)];
    }
  }

  /** Outside its stated range the padding is still applied blindly. */
  lemma Fmt2IntOutsideRange()
    ensures Fmt2Int(-5) == "0-5"
    ensures |Fmt2Int(100)| == 3
  {
    assert IntText(-5) == "-" + NatText(5);
    assert NatText(100) == NatText(10) + ['0'];
    assert NatText(10) == NatText(1) + ['0'];
  }
}
