/** `convertToCSV`: the text table the worker exports for one record, with
    the small pieces of JavaScript it relies on (`JSON.stringify` of an
    integer, `Array.prototype.join`, `slice(0, end)`), each paired with an
    inverse that recovers what was written. */
module Csv {
  import opened Wrappers
  import opened Recording

  predicate IsDigit(c: char) { '0' <= c <= '9' }

  function DigitChar(d: nat): (c: char)
    requires d < 10
    ensures IsDigit(c)
  {
    ('0' as int + d) as char
  }

  function DigitValue(c: char): (d: nat)
    ensures d < 10
  {
    if IsDigit(c) then c as int - '0' as int else 0
  }

  /** The decimal text `JSON.stringify` gives a non-negative integer:
      digits only, never empty, and no leading zero. */
  function NatText(n: nat): (s: string)
    ensures |s| > 0
    ensures forall c | c in s :: IsDigit(c)
    ensures s[0] == '0' ==> n == 0 && s == "0"
    decreases n
  {
    if n < 10 then [DigitChar(n)] else NatText(n / 10) + [DigitChar(n % 10)]
  }

  /** `JSON.stringify` of an integer: a minus sign before a negative one,
      then the digits of its magnitude without a leading zero. */
  function IntText(x: int): (s: string)
    ensures |s| > 0
    ensures forall c | c in s :: IsDigit(c) || c == '-'
    ensures s[0] == '-' <==> x < 0
    ensures forall i | 0 < i < |s| :: IsDigit(s[i])
    ensures x >= 0 && s[0] == '0' ==> x == 0 && s == "0"
    ensures x < 0 ==> |s| > 1 && s[1] != '0'
  {
    if x < 0 then "-" + NatText(-x)
    else
      var s := NatText(x);
      assert s[0] in s;
      s
  }

  /** Reads decimal digits back (the inverse of `NatText`). */
  function ParseNat(s: string): nat
    decreases |s|
  {
    if |s| == 0 then 0 else ParseNat(s[..|s| - 1]) * 10 + DigitValue(s[|s| - 1])
  }

  /** Reads an optionally signed decimal back (the inverse of `IntText`). */
  function ParseInt(s: string): int
  {
    if |s| > 0 && s[0] == '-' then 0 - ParseNat(s[1..]) else ParseNat(s)
  }

  lemma {:induction false} NatTextRoundTrip(n: nat)
    ensures ParseNat(NatText(n)) == n
    decreases n
  {
    var s := NatText(n);
    if n < 10 {
      assert s[..|s| - 1] == [];
    } else {
      assert s[..|s| - 1] == NatText(n / 10);
      NatTextRoundTrip(n / 10);
    }
  }

  /** Reading back what `JSON.stringify` wrote gives the integer again. */
  lemma IntTextRoundTrip(x: int)
    ensures ParseInt(IntText(x)) == x
  {
    if x < 0 {
      assert IntText(x)[1..] == NatText(-x);
      NatTextRoundTrip(-x);
    } else {
      NatTextRoundTrip(x);
    }
  }

  /** A field as written into a row: `JSON.stringify(field)` when it is
      present, empty text for `null` and `undefined`. */
  function FieldText(f: Field): (s: string)
    ensures s == "" <==> f.None?
    ensures forall c | c in s :: c != ',' && c != '\n' && c != '\r'
  {
    match f
    case None => ""
    case Some(x) => IntText(x)
  }

  function ParseField(s: string): Field
  {
    if s == "" then None else Some(ParseInt(s))
  }

  lemma FieldRoundTrip(f: Field)
    ensures ParseField(FieldText(f)) == f
  {
    if f.Some? {
      IntTextRoundTrip(f.value);
    }
  }

  /** `Array.prototype.join(sep)` on strings. */
  function Join(parts: seq<string>, sep: char): string
    decreases |parts|
  {
    if |parts| == 0 then ""
    else if |parts| == 1 then parts[0]
    else parts[0] + [sep] + Join(parts[1..], sep)
  }

  /** Cuts a text at every `sep`; the inverse of `Join`. */
  function Split(s: string, sep: char): (parts: seq<string>)
    ensures |parts| >= 1
    decreases |s|
  {
    if |s| == 0 then [""]
    else
      var rest := Split(s[1..], sep);
      if s[0] == sep then [""] + rest else [[s[0]] + rest[0]] + rest[1..]
  }

  lemma {:induction false} SplitWithout(p: string, sep: char)
    requires sep !in p
    ensures Split(p, sep) == [p]
    decreases |p|
  {
    if |p| > 0 {
      SplitWithout(p[1..], sep);
      assert [p[0]] + p[1..] == p;
    }
  }

  lemma {:induction false} SplitAfter(p: string, t: string, sep: char)
    requires sep !in p
    ensures Split(p + [sep] + t, sep) == [p] + Split(t, sep)
    decreases |p|
  {
    var s := p + [sep] + t;
    if |p| == 0 {
      assert s[1..] == t;
    } else {
      assert s[1..] == p[1..] + [sep] + t;
      SplitAfter(p[1..], t, sep);
      assert [p[0]] + p[1..] == p;
    }
  }

  /** Joined parts that do not contain the separator split back apart. */
  lemma {:induction false} SplitJoin(parts: seq<string>, sep: char)
    requires |parts| >= 1
    requires forall i | 0 <= i < |parts| :: sep !in parts[i]
    ensures Split(Join(parts, sep), sep) == parts
    decreases |parts|
  {
    if |parts| == 1 {
      SplitWithout(parts[0], sep);
    } else {
      SplitJoin(parts[1..], sep);
      SplitAfter(parts[0], Join(parts[1..], sep), sep);
      assert [parts[0]] + parts[1..] == parts;
    }
  }

  /** Joining never introduces a character other than the separator. */
  lemma {:induction false} JoinWithout(parts: seq<string>, sep: char, c: char)
    requires c != sep
    requires forall i | 0 <= i < |parts| :: c !in parts[i]
    ensures c !in Join(parts, sep)
    decreases |parts|
  {
    if |parts| > 1 {
      JoinWithout(parts[1..], sep, c);
    }
  }

  function Min(a: int, b: int): int { if a < b then a else b }

  /** The fields `item.slice(0, canvasCount + 1)` keeps: a prefix of the
      frame, at most `canvasCount + 1` long; a negative end counts from the
      back of the frame, as JavaScript's `slice` does. */
  function KeptFields(fields: seq<Field>, canvasCount: int): (kept: seq<Field>)
    ensures kept <= fields
    ensures canvasCount >= -1 ==> |kept| == Min(|fields|, canvasCount + 1)
    ensures canvasCount < -1 ==> |kept| == |fields| - Min(|fields|, -(canvasCount + 1))
  {
    var end := canvasCount + 1;
    var stop := if end < 0 then (if |fields| + end < 0 then 0 else |fields| + end)
                else Min(|fields|, end);
    fields[..stop]
  }

  function FieldTexts(fs: seq<Field>): (texts: seq<string>)
    ensures |texts| == |fs|
  {
    seq(|fs|, i requires 0 <= i < |fs| => FieldText(fs[i]))
  }

  /** One data row: the kept fields, comma separated. */
  function RowLine(fields: seq<Field>, canvasCount: int): string
  {
    Join(FieldTexts(KeptFields(fields, canvasCount)), ',')
  }

  /** Reads a data row back into fields, empty text as a missing field. */
  function ParseRow(line: string): (fs: seq<Field>)
  {
    var parts := Split(line, ',');
    seq(|parts|, i requires 0 <= i < |parts| => ParseField(parts[i]))
  }

  /** A data row holds exactly the kept fields, in order, with a missing
      field as empty text; a frame with nothing kept gives an empty line. */
  lemma RowRoundTrip(fields: seq<Field>, canvasCount: int)
    ensures KeptFields(fields, canvasCount) == [] ==> RowLine(fields, canvasCount) == ""
    ensures KeptFields(fields, canvasCount) != [] ==>
              ParseRow(RowLine(fields, canvasCount)) == KeptFields(fields, canvasCount)
  {
    var kept := KeptFields(fields, canvasCount);
    var texts := FieldTexts(kept);
    if kept != [] {
      SplitJoin(texts, ',');
      forall i | 0 <= i < |kept| ensures ParseField(texts[i]) == kept[i] {
        FieldRoundTrip(kept[i]);
      }
    }
  }

  /** `Array.from({ length: canvasCount })` makes no element for a negative
      length. */
  function ChannelCount(canvasCount: int): nat
  {
    if canvasCount < 0 then 0 else canvasCount
  }

  /** The header fields: `Counter`, then `Channel1` .. `ChannelN`. */
  function HeaderFields(canvasCount: int): (h: seq<string>)
    ensures |h| == ChannelCount(canvasCount) + 1
    ensures h[0] == "Counter"
    ensures forall k | 1 <= k < |h| :: h[k] == "Channel" + NatText(k)
  {
    ["Counter"] + seq(ChannelCount(canvasCount), i requires 0 <= i => "Channel" + NatText(i + 1))
  }

  function HeaderLine(canvasCount: int): string
  {
    Join(HeaderFields(canvasCount), ',')
  }

  /** The rows of `data.map(...)`: one per entry, or `None` when some entry
      is not an array and `slice` throws on it. */
  function Rows(entries: seq<Entry>, canvasCount: int): (rows: Option<seq<string>>)
    ensures rows.Some? <==> forall i | 0 <= i < |entries| :: entries[i].Frame?
    ensures rows.Some? ==> |rows.value| == |entries|
    ensures rows.Some? ==> forall i | 0 <= i < |entries| ::
              rows.value[i] == RowLine(entries[i].fields, canvasCount)
    decreases |entries|
  {
    if |entries| == 0 then Some([])
    else
      match entries[0]
      case Malformed => None
      case Frame(fields) =>
        match Rows(entries[1..], canvasCount)
        case None => None
        case Some(rest) => Some([RowLine(fields, canvasCount)] + rest)
  }

  /** `convertToCSV(content, canvasCount)`: `None` when it throws (the
      content is not an array, or one of its entries is not). An empty
      array gives empty text, without even a header. */
  function ConvertToCsv(content: Content, canvasCount: int): (csv: Option<string>)
    ensures content == Items([]) ==> csv == Some("")
    ensures csv.Some? <==> content.Items? && forall e | e in content.entries :: e.Frame?
  {
    match content
    case NotAList => None
    case Items(entries) =>
      if |entries| == 0 then Some("")
      else
        match Rows(entries, canvasCount)
        case None => None
        case Some(rows) => Some(Join([HeaderLine(canvasCount)] + rows, '\n'))
  }

  /** A channel cell holds no separator: `Channel` followed by digits. */
  lemma ChannelCellClean(k: nat)
    ensures var cell := "Channel" + NatText(k);
            ',' !in cell && '\n' !in cell && '\r' !in cell
  {
    var digits := NatText(k);
    forall c | c in "Channel" + digits ensures c != ',' && c != '\n' && c != '\r' {
      if c in digits {
        assert IsDigit(c);
      } else {
        assert c in "Channel";
      }
    }
  }

  lemma HeaderLineShape(canvasCount: int)
    ensures Split(HeaderLine(canvasCount), ',') == HeaderFields(canvasCount)
    ensures '\n' !in HeaderLine(canvasCount) && '\r' !in HeaderLine(canvasCount)
  {
    var h := HeaderFields(canvasCount);
    forall k | 0 <= k < |h| ensures ',' !in h[k] && '\n' !in h[k] && '\r' !in h[k] {
      if k > 0 {
        ChannelCellClean(k);
      }
    }
    SplitJoin(h, ',');
    JoinWithout(h, ',', '\n');
    JoinWithout(h, ',', '\r');
  }

  lemma RowLineClean(fields: seq<Field>, canvasCount: int)
    ensures '\n' !in RowLine(fields, canvasCount) && '\r' !in RowLine(fields, canvasCount)
  {
    var texts := FieldTexts(KeptFields(fields, canvasCount));
    JoinWithout(texts, ',', '\n');
    JoinWithout(texts, ',', '\r');
  }

  /** The layout of a non-empty export: its lines are the header, whose
      comma-separated cells are `Counter,Channel1..ChannelN`, then one line
      per frame in stored order. */
  lemma CsvLayout(entries: seq<Entry>, canvasCount: int, csv: string)
    requires |entries| > 0
    requires ConvertToCsv(Items(entries), canvasCount) == Some(csv)
    ensures |Split(csv, '\n')| == |entries| + 1
    ensures Split(Split(csv, '\n')[0], ',') == HeaderFields(canvasCount)
    ensures forall i | 0 <= i < |entries| ::
              Split(csv, '\n')[i + 1] == RowLine(entries[i].fields, canvasCount)
  {
    var rows := Rows(entries, canvasCount).value;
    var lines := [HeaderLine(canvasCount)] + rows;
    HeaderLineShape(canvasCount);
    forall k | 0 <= k < |lines| ensures '\n' !in lines[k] {
      if k > 0 {
        RowLineClean(entries[k - 1].fields, canvasCount);
      }
    }
    SplitJoin(lines, '\n');
  }

  /** Lines are separated by a bare line feed: the text never contains the
      carriage return that RFC 4180 (section 2) puts in every line break. */
  lemma CsvHasNoCarriageReturn(content: Content, canvasCount: int)
    requires ConvertToCsv(content, canvasCount).Some?
    ensures '\r' !in ConvertToCsv(content, canvasCount).value
  {
    if content.Items? && |content.entries| > 0 {
      var entries := content.entries;
      var rows := Rows(entries, canvasCount).value;
      var lines := [HeaderLine(canvasCount)] + rows;
      HeaderLineShape(canvasCount);
      forall k | 0 <= k < |lines| ensures '\r' !in lines[k] {
        if k > 0 {
          RowLineClean(entries[k - 1].fields, canvasCount);
        }
      }
      JoinWithout(lines, '\n', '\r');
    }
  }

  lemma SmallNatTexts()
    ensures NatText(0) == "0" && NatText(1) == "1" && NatText(2) == "2" && NatText(3) == "3"
    ensures NatText(4) == "4" && NatText(5) == "5" && NatText(6) == "6"
  {
  }

  lemma {:induction false} JoinThree(a: string, b: string, c: string, sep: char)
    ensures Join([a, b, c], sep) == a + [sep] + b + [sep] + c
  {
    assert [a, b, c][1..] == [b, c] && [b, c][1..] == [c];
    assert Join([c], sep) == c;
    assert Join([b, c], sep) == b + [sep] + c;
    assert Join([a, b, c], sep) == a + [sep] + (b + [sep] + c);
  }

  lemma {:induction false} JoinFour(a: string, b: string, c: string, d: string, sep: char)
    ensures Join([a, b, c, d], sep) == a + [sep] + b + [sep] + c + [sep] + d
  {
    assert [a, b, c, d][1..] == [b, c, d];
    JoinThree(b, c, d, sep);
  }

  lemma HeaderFieldsThree()
    ensures HeaderFields(3) == ["Counter", "Channel1", "Channel2", "Channel3"]
  {
    SmallNatTexts();
    var h := HeaderFields(3);
    assert h[1] == "Channel" + NatText(1) == "Channel1";
    assert h[2] == "Channel" + NatText(2) == "Channel2";
    assert h[3] == "Channel" + NatText(3) == "Channel3";
  }

  lemma HeaderLineThree()
    ensures HeaderLine(3) == "Counter,Channel1,Channel2,Channel3"
  {
    HeaderFieldsThree();
    JoinFour("Counter", "Channel1", "Channel2", "Channel3", ',');
    HeaderTextThree();
  }

  lemma HeaderTextThree()
    ensures "Counter" + [','] + "Channel1" + [','] + "Channel2" + [','] + "Channel3"
            == "Counter,Channel1,Channel2,Channel3"
  {
    assert "Counter" + [','] + "Channel1" == "Counter,Channel1";
    assert "Counter,Channel1" + [','] + "Channel2" == "Counter,Channel1,Channel2";
  }

  lemma RowLineFour(a: nat, b: nat, c: nat, d: nat)
    requires a < 10 && b < 10 && c < 10 && d < 10
    ensures RowLine([Some(a), Some(b), Some(c), Some(d)], 3)
            == [DigitChar(a), ',', DigitChar(b), ',', DigitChar(c), ',', DigitChar(d)]
  {
    var f := [Some(a), Some(b), Some(c), Some(d)];
    assert KeptFields(f, 3) == f;
    assert FieldTexts(f) == [[DigitChar(a)], [DigitChar(b)], [DigitChar(c)], [DigitChar(d)]];
    JoinFour([DigitChar(a)], [DigitChar(b)], [DigitChar(c)], [DigitChar(d)], ',');
  }

  lemma {:induction false} RowsTwo(f1: seq<Field>, f2: seq<Field>, canvasCount: int)
    ensures Rows([Frame(f1), Frame(f2)], canvasCount)
            == Some([RowLine(f1, canvasCount), RowLine(f2, canvasCount)])
  {
    var entries := [Frame(f1), Frame(f2)];
    assert forall i | 0 <= i < |entries| :: entries[i].Frame?;
    var rows := Rows(entries, canvasCount).value;
    assert |rows| == 2 && rows[0] == RowLine(f1, canvasCount) && rows[1] == RowLine(f2, canvasCount);
    assert rows == [RowLine(f1, canvasCount), RowLine(f2, canvasCount)];
  }

  lemma ConvertTwo(f1: seq<Field>, f2: seq<Field>, canvasCount: int)
    ensures ConvertToCsv(Items([Frame(f1), Frame(f2)]), canvasCount)
            == Some(HeaderLine(canvasCount) + "\n" + RowLine(f1, canvasCount) + "\n" + RowLine(f2, canvasCount))
  {
    var hl, r1, r2 := HeaderLine(canvasCount), RowLine(f1, canvasCount), RowLine(f2, canvasCount);
    RowsTwo(f1, f2, canvasCount);
    assert [hl] + [r1, r2] == [hl, r1, r2];
    JoinThree(hl, r1, r2, '\n');
  }

  lemma RowLineExamples()
    ensures RowLine([Some(1), Some(2), Some(3), Some(0)], 3) == "1,2,3,0"
    ensures RowLine([Some(4), Some(5), Some(6), Some(1)], 3) == "4,5,6,1"
  {
    RowLineFour(1, 2, 3, 0);
    RowLineFour(4, 5, 6, 1);
    assert DigitChar(0) == '0' && DigitChar(1) == '1' && DigitChar(2) == '2' && DigitChar(3) == '3';
    assert DigitChar(4) == '4' && DigitChar(5) == '5' && DigitChar(6) == '6';
  }

  /** Two four-field frames exported with three channels. */
  lemma ConvertExample()
    ensures ConvertToCsv(Items([Frame([Some(1), Some(2), Some(3), Some(0)]),
                                Frame([Some(4), Some(5), Some(6), Some(1)])]), 3)
            == Some("Counter,Channel1,Channel2,Channel3\n1,2,3,0\n4,5,6,1")
  {
    HeaderLineThree();
    RowLineExamples();
    ConvertTwo([Some(1), Some(2), Some(3), Some(0)], [Some(4), Some(5), Some(6), Some(1)], 3);
    ExampleTextTwo();
  }

  lemma ExampleTextTwo()
    ensures "Counter,Channel1,Channel2,Channel3" + "\n" + "1,2,3,0" + "\n" + "4,5,6,1"
            == "Counter,Channel1,Channel2,Channel3\n1,2,3,0\n4,5,6,1"
  {
    assert "Counter,Channel1,Channel2,Channel3" + "\n" == "Counter,Channel1,Channel2,Channel3\n";
    assert "Counter,Channel1,Channel2,Channel3\n" + "1,2,3,0" == "Counter,Channel1,Channel2,Channel3\n1,2,3,0";
    assert "Counter,Channel1,Channel2,Channel3\n1,2,3,0" + "\n" == "Counter,Channel1,Channel2,Channel3\n1,2,3,0\n";
  }
}
