/** UInt64Array of db/dbtypes/types.go: the printer Value and the reader Scan that must invert it. */
module UInt64Array {
  import opened Options
  import opened ArrayText

  const MAX_UINT64: nat := 0xFFFF_FFFF_FFFF_FFFF

  newtype uint64 = x: int | 0 <= x <= 0xFFFF_FFFF_FFFF_FFFF

  /** A Go slice: nil is a value of its own, distinct from the empty slice. */
  datatype Slice = Nil | Slice(items: seq<uint64>)

  /** What the database driver hands to Scan, or gets from Value. */
  datatype DriverValue = NullValue | Text(text: bytes) | OtherType

  datatype ScanError = WrongType | BadText(err: ArrayError) | BadElement(index: nat)

  // ---------------------------------------------------------------------------------------------
  // Decimal numbers, as strconv.AppendUint and strconv.ParseUint treat them in base 10

  predicate IsDigit(b: byte) {
    48 <= b <= 57
  }

  function Decimal(n: nat): (r: bytes)
    ensures r != [] && forall b <- r :: IsDigit(b)
  {
    var last: bytes := [(48 + n % 10) as byte];
    if n < 10 then last else Decimal(n / 10) + last
  }

  function DecimalValue(s: bytes): nat
    requires forall b <- s :: IsDigit(b)
  {
    if s == [] then 0
    else
      var last := s[|s| - 1];
      assert IsDigit(last);
      10 * DecimalValue(s[..|s| - 1]) + (last as int - 48)
  }

  function ParseUint(s: bytes): Option<uint64> {
    if s == [] || exists b <- s :: !IsDigit(b) then None
    else if DecimalValue(s) > MAX_UINT64 then None
    else Some(DecimalValue(s) as uint64)
  }

  lemma {:induction false} DecimalInverse(n: nat)
    ensures DecimalValue(Decimal(n)) == n
  {
    var d := Decimal(n);
    if n >= 10 {
      DecimalInverse(n / 10);
      assert d[..|d| - 1] == Decimal(n / 10);
    } else {
      assert d[..|d| - 1] == [];
    }
  }

  /** n divided by ten, k times over. */
  function Tens(n: nat, k: nat): nat
    decreases k
  {
    if k == 0 then n else Tens(n / 10, k - 1)
  }

  lemma {:induction false} TensOfZero(k: nat)
    ensures Tens(0, k) == 0
  {
    if k > 0 {
      TensOfZero(k - 1);
    }
  }

  /** The digit at place k from the end is what is left of n when it was divided by ten k times, modulo ten; and
      there are just as many digits as it takes. */
  lemma {:induction false} DecimalDigits(n: nat, k: nat)
    ensures var d := Decimal(n);
      && (k < |d| ==> d[|d| - 1 - k] as nat == 48 + Tens(n, k) % 10)
      && (k >= |d| ==> Tens(n, k) == 0)
      && (|d| > 1 ==> Tens(n, |d| - 1) > 0)
    decreases k, n
  {
    var d := Decimal(n);
    if n < 10 {
      if k > 0 {
        TensOfZero(k - 1);
      }
    } else {
      var rest := Decimal(n / 10);
      if k > 0 {
        DecimalDigits(n / 10, k - 1);
        assert k < |d| ==> d[|d| - 1 - k] == rest[|rest| - 1 - (k - 1)];
      } else {
        DecimalDigits(n / 10, 0);
        assert d[|d| - 1] == (48 + n % 10) as byte;
      }
      assert Tens(n, |d| - 1) == Tens(n / 10, |rest| - 1);
    }
  }

  lemma {:induction false} FirstDigit(n: nat)
    ensures n > 0 ==> Decimal(n)[0] > 48
  {
    if n >= 10 {
      FirstDigit(n / 10);
    }
  }

  lemma {:induction false} LeadingZero(s: bytes)
    requires s != [] && forall b <- s :: IsDigit(b)
    ensures DecimalValue([48] + s) == DecimalValue(s)
    decreases |s|
  {
    var t := [48] + s;
    assert t[..|t| - 1] == [48] + s[..|s| - 1];
    if |s| > 1 {
      LeadingZero(s[..|s| - 1]);
    } else {
      assert s[..0] == [] && t[..1] == [48] && [48][..0] == [];
    }
  }

  /** Digits with k zeros in front. */
  function Padded(k: nat, s: bytes): (r: bytes)
    requires s != [] && forall b <- s :: IsDigit(b)
    ensures |r| == k + |s| && forall b <- r :: IsDigit(b)
    ensures k == 0 ==> r == s
  {
    if k == 0 then s else [48] + Padded(k - 1, s)
  }

  lemma {:induction false} LeadingZeros(k: nat, s: bytes)
    requires s != [] && forall b <- s :: IsDigit(b)
    ensures DecimalValue(Padded(k, s)) == DecimalValue(s)
    decreases k
  {
    hide DecimalValue;
    if k > 0 {
      LeadingZeros(k - 1, s);
      LeadingZero(Padded(k - 1, s));
    }
  }

  lemma {:induction false} PaddedMore(k: nat, s: bytes, c: byte)
    requires s != [] && (forall b <- s :: IsDigit(b)) && IsDigit(c)
    ensures Padded(k, s + [c]) == Padded(k, s) + [c]
    ensures s == [48] ==> Padded(k, s + [c]) == Padded(k + 1, [c])
    decreases k
  {
    if k > 0 {
      PaddedMore(k - 1, s, c);
    }
  }

  /** Digits are the decimal digits of their value behind some zeros. */
  lemma {:induction false} DigitsAreDecimal(s: bytes) returns (k: nat)
    requires s != [] && forall b <- s :: IsDigit(b)
    ensures s == Padded(k, Decimal(DecimalValue(s)))
    decreases |s|
  {
    var n, c := |s| - 1, s[|s| - 1];
    assert IsDigit(c) && s == s[..n] + [c];
    if n == 0 {
      k := 0;
      assert DecimalValue(s[..0]) == 0;
    } else {
      k := DigitsAreDecimal(s[..n]);
      k := OneMoreDigit(k, DecimalValue(s[..n]), c);
    }
  }

  lemma OneMoreDigit(k: nat, v: nat, c: byte) returns (k': nat)
    requires IsDigit(c)
    ensures Padded(k, Decimal(v)) + [c] == Padded(k', Decimal(10 * v + (c as nat - 48)))
  {
    PaddedMore(k, Decimal(v), c);
    hide Padded;
    k' := if v == 0 then k + 1 else k;
  }

  predicate IsPadded(s: bytes, k: nat, x: uint64) {
    s == Padded(k, Decimal(x as nat))
  }

  /** strconv.ParseUint: exactly the decimal digits of a number, zeros allowed in front, are read as the number. */
  lemma ParseUintExact(s: bytes, x: uint64)
    ensures ParseUint(s) == Some(x) <==> exists k: nat :: IsPadded(s, k, x)
  {
    hide Padded, Decimal;
    DecimalInverse(x as nat);
    if ParseUint(s) == Some(x) {
      var k := DigitsAreDecimal(s);
      assert IsPadded(s, k, x);
    }
    if k: nat :| IsPadded(s, k, x) {
      LeadingZeros(k, Decimal(x as nat));
    }
  }

  /** So its digits are the shortest text of a number. */
  lemma DecimalIsShortest(s: bytes, x: uint64)
    requires ParseUint(s) == Some(x)
    ensures |Decimal(x as nat)| <= |s| && (|s| == |Decimal(x as nat)| ==> s == Decimal(x as nat))
  {
    hide ParseUint, Decimal;
    ParseUintExact(s, x);
    var k: nat :| IsPadded(s, k, x);
  }

  // ---------------------------------------------------------------------------------------------
  // The printer

  /** The numbers separated by commas, without the braces. */
  function Joined(a: seq<uint64>): bytes {
    if a == [] then []
    else if |a| == 1 then Decimal(a[0] as nat)
    else Joined(a[..|a| - 1]) + [COMMA] + Decimal(a[|a| - 1] as nat)
  }

  function Printed(a: Slice): DriverValue {
    if a.Nil? then NullValue else Text([LBRACE] + Joined(a.items) + [RBRACE])
  }

  /** UInt64Array.Value */
  method Value(a: Slice) returns (v: DriverValue)
    ensures v == Printed(a)
  {
    if a.Nil? {
      return NullValue;
    }
    var n := |a.items|;
    if n > 0 {
      var b: bytes := [LBRACE];
      b := b + Decimal(a.items[0] as nat);
      for i := 1 to n
        invariant b == [LBRACE] + Joined(a.items[..i])
      {
        b := b + [COMMA];
        b := b + Decimal(a.items[i] as nat);
        assert a.items[..i + 1][..i] == a.items[..i];
      }
      assert a.items[..n] == a.items;
      return Text(b + [RBRACE]);
    }
    return Text([LBRACE, RBRACE]);
  }

  // ---------------------------------------------------------------------------------------------
  // The reader

  /** The bytes strconv sees for an element: none for SQL NULL. */
  function ElemText(e: Elem): bytes {
    if e.Null? then [] else e.text
  }

  /** The numbers of a list of elements, or the index of the first one that is not a number. */
  function ParseNumbers(elems: seq<Elem>, from: nat): NumberList
    requires from <= |elems|
    decreases |elems| - from
  {
    if from == |elems| then Numbers([])
    else match ParseUint(ElemText(elems[from]))
      case None => NotNumber(from)
      case Some(x) => match ParseNumbers(elems, from + 1)
        case NotNumber(k) => NotNumber(k)
        case Numbers(xs) => Numbers([x] + xs)
  }

  datatype NumberList = Numbers(values: seq<uint64>) | NotNumber(index: nat)

  /** What Scan makes of a text, the destination being nil or not. */
  ghost predicate ScansTo(text: bytes, a: seq<uint64>) {
    exists elems :: LinearText(text, elems) && ParseNumbers(elems, 0) == Numbers(a)
  }

  /** The error tells why: the text is no linear array, or which element is the first that is no number. */
  ghost predicate Rejects(text: bytes, err: ScanError) {
    match err
    case WrongType => false
    case BadText(_) => forall elems :: !LinearText(text, elems)
    case BadElement(k) => exists elems :: LinearText(text, elems) && ParseNumbers(elems, 0) == NotNumber(k)
  }

  class Destination {
    var a: Slice

    /** UInt64Array.Scan */
    method Scan(src: DriverValue) returns (err: Option<ScanError>)
      modifies this
      ensures err.Some? ==> a == old(a)
      ensures src.NullValue? ==> err.None? && a == Nil
      ensures src.OtherType? ==> err == Some(WrongType)
      ensures src.Text? && err.None? ==> a.Slice? && ScansTo(src.text, a.items)
      ensures src.Text? && err.Some? ==> forall values :: !ScansTo(src.text, values)
      ensures src.Text? && err.Some? ==> Rejects(src.text, err.value)
    {
      match src {
        case Text(text) => err := ScanBytes(text);
        case NullValue => a := Nil; err := None;
        case OtherType => err := Some(WrongType);
      }
    }

    method ScanBytes(src: bytes) returns (err: Option<ScanError>)
      modifies this
      ensures err.Some? ==> a == old(a)
      ensures err.None? ==> a.Slice? && ScansTo(src, a.items)
      ensures err.Some? ==> forall values :: !ScansTo(src, values)
      ensures err.Some? ==> Rejects(src, err.value)
    {
      var textErr, elems := ScanLinearArray(src);
      if textErr.Some? {
        return Some(BadText(textErr.value));
      }
      forall es | LinearText(src, es) ensures es == elems {
        ReadLinearIffLinearText(src, es);
        ReadLinearIffLinearText(src, elems);
      }
      if a != Nil && |elems| == 0 {
        a := Slice(a.items[..0]);
        assert ParseNumbers(elems, 0) == Numbers([]);
      } else {
        var b: seq<uint64> := [];
        NumbersFrom(elems, 0, []);
        for i := 0 to |elems|
          invariant |b| == i && a == old(a)
          invariant ParseNumbers(elems, 0) == Extend(b, ParseNumbers(elems, i))
        {
          var v := ParseUint(ElemText(elems[i]));
          if v.None? {
            return Some(BadElement(i));
          }
          NumbersFrom(elems, i, b);
          b := b + [v.value];
        }
        assert b + [] == b;
        a := Slice(b);
      }
      err := None;
    }
  }

  function Extend(b: seq<uint64>, r: NumberList): NumberList {
    if r.NotNumber? then r else Numbers(b + r.values)
  }

  lemma NumbersFrom(elems: seq<Elem>, i: nat, b: seq<uint64>)
    requires i <= |elems|
    ensures i < |elems| && ParseUint(ElemText(elems[i])).Some? ==>
      Extend(b, ParseNumbers(elems, i)) == Extend(b + [ParseUint(ElemText(elems[i])).value], ParseNumbers(elems, i + 1))
    ensures Extend([], ParseNumbers(elems, i)) == ParseNumbers(elems, i)
  {
    if i < |elems| && ParseUint(ElemText(elems[i])).Some? && ParseNumbers(elems, i + 1).Numbers? {
      var x, xs := ParseUint(ElemText(elems[i])).value, ParseNumbers(elems, i + 1).values;
      assert b + ([x] + xs) == (b + [x]) + xs;
    }
    if ParseNumbers(elems, i).Numbers? {
      assert [] + ParseNumbers(elems, i).values == ParseNumbers(elems, i).values;
    }
  }

  // ---------------------------------------------------------------------------------------------
  // Round trip

  function NumberItem(x: uint64): Item {
    Bare(Decimal(x as nat))
  }

  function NumberItems(a: seq<uint64>): (r: seq<Item>)
    ensures |r| == |a| && forall i :: 0 <= i < |a| ==> r[i] == NumberItem(a[i])
  {
    seq(|a|, i requires 0 <= i < |a| => NumberItem(a[i]))
  }

  lemma NumberItemsWellFormed(a: seq<uint64>)
    requires a != []
    ensures WellFormedItems(NumberItems(a))
  {
    forall i | 0 <= i < |a| ensures NumberItem(a[i]).WellFormed() {
      var d := Decimal(a[i] as nat);
      assert forall b <- d :: IsDigit(b);
      assert IsDigit(d[0]);
    }
  }

  /** The items separated by commas, without the closing brace. */
  function ItemsCore(items: seq<Item>): bytes
    requires items != []
  {
    items[0].Text() + if |items| == 1 then [] else [COMMA] + ItemsCore(items[1..])
  }

  lemma {:induction false} ItemsTextCore(items: seq<Item>)
    requires items != []
    ensures ItemsText(items) == ItemsCore(items) + [RBRACE]
    decreases |items|
  {
    if |items| > 1 {
      ItemsTextCore(items[1..]);
    }
  }

  /** The grammar prepends while the printer appends. */
  lemma {:induction false} ItemsCoreSnoc(items: seq<Item>, last: Item)
    requires items != []
    ensures ItemsCore(items + [last]) == ItemsCore(items) + ([COMMA] + last.Text())
    decreases |items|
  {
    hide Item.Text;
    var all := items + [last];
    if |items| == 1 {
      assert all[1..] == [last];
      assert ItemsCore([last]) == last.Text();
    } else {
      ItemsCoreSnoc(items[1..], last);
      assert all[1..] == items[1..] + [last];
    }
  }

  lemma {:induction false} JoinedIsItemsCore(a: seq<uint64>)
    requires a != []
    ensures ItemsCore(NumberItems(a)) == Joined(a)
  {
    var n := |a| - 1;
    if n > 0 {
      JoinedIsItemsCore(a[..n]);
      ItemsCoreSnoc(NumberItems(a[..n]), NumberItem(a[n]));
      assert NumberItems(a) == NumberItems(a[..n]) + [NumberItem(a[n])];
    } else {
      assert NumberItems(a) == [NumberItem(a[0])];
    }
  }

  lemma {:induction false} ValuesAt(items: seq<Item>)
    ensures |Values(items)| == |items|
    ensures forall i :: 0 <= i < |items| ==> Values(items)[i] == items[i].Value()
  {
    if items != [] {
      ValuesAt(items[1..]);
    }
  }

  lemma NumberIsRead(x: uint64)
    ensures NumberItem(x).Value() == Bytes(Decimal(x as nat)) && ParseUint(Decimal(x as nat)) == Some(x)
  {
    var d := Decimal(x as nat);
    hide DecimalValue, Decimal;
    assert IsDigit(d[0]) && !IsDigit(NULL_TEXT[0]);
    DecimalInverse(x as nat);
  }

  lemma {:induction false} PrintedNumbersRead(a: seq<uint64>, i: nat)
    requires i <= |a|
    ensures |Values(NumberItems(a))| == |a|
    ensures ParseNumbers(Values(NumberItems(a)), i) == Numbers(a[i..])
    decreases |a| - i
  {
    hide Decimal, ParseUint, Values, Item.Value;
    ValuesAt(NumberItems(a));
    if i < |a| {
      PrintedNumbersRead(a, i + 1);
      NumberIsRead(a[i]);
      assert a[i..] == [a[i]] + a[i + 1..];
    }
  }

  /** A text stands for at most one list of numbers. */
  lemma ScansToOnce(text: bytes, a: seq<uint64>, b: seq<uint64>)
    requires ScansTo(text, a) && ScansTo(text, b)
    ensures a == b
  {
    var ea :| LinearText(text, ea) && ParseNumbers(ea, 0) == Numbers(a);
    var eb :| LinearText(text, eb) && ParseNumbers(eb, 0) == Numbers(b);
    ReadLinearIffLinearText(text, ea);
    ReadLinearIffLinearText(text, eb);
  }

  /** What Value prints for a slice that is not nil is read back as that slice and as no other. */
  lemma PrintedScansTo(a: seq<uint64>, b: seq<uint64>)
    ensures ScansTo(Printed(Slice(a)).text, b) <==> a == b
  {
    var text := Printed(Slice(a)).text;
    if a == [] {
      assert text == Repeat(LBRACE, 1) + Repeat(RBRACE, 1);
      assert NestedEmpty(text);
      assert LinearText(text, []);
    } else {
      var items := NumberItems(a);
      NumberItemsWellFormed(a);
      JoinedIsItemsCore(a);
      ItemsTextCore(items);
      assert text == [LBRACE] + ItemsText(items);
      assert OneLevel(text, items);
      PrintedNumbersRead(a, 0);
      assert a[0..] == a;
      assert LinearText(text, Values(items));
    }
    assert ScansTo(text, a);
    if ScansTo(text, b) {
      ScansToOnce(text, a, b);
    }
  }

  /** A list of elements is read as these numbers when each element is the text of its number; otherwise the
      first that is no number is named. */
  lemma {:induction false} ParseNumbersAre(elems: seq<Elem>, from: nat)
    requires from <= |elems|
    ensures match ParseNumbers(elems, from)
      case Numbers(xs) =>
        && |xs| == |elems| - from
        && (forall i :: 0 <= i < |xs| ==> ParseUint(ElemText(elems[from + i])) == Some(xs[i]))
      case NotNumber(k) =>
        && from <= k < |elems| && ParseUint(ElemText(elems[k])).None?
        && (forall i :: from <= i < k ==> ParseUint(ElemText(elems[i])).Some?)
    decreases |elems| - from
  {
    hide ParseUint;
    if from < |elems| && ParseUint(ElemText(elems[from])).Some? {
      ParseNumbersAre(elems, from + 1);
    }
  }

  lemma {:induction false} BodyIsLonger(body: seq<QuotedByte>)
    ensures |BodyText(body)| >= |BodyValue(body)|
  {
    if body != [] {
      BodyIsLonger(body[1..]);
    }
  }

  lemma NumberItemIsShortest(it: Item, x: uint64)
    requires ParseUint(ElemText(it.Value())) == Some(x)
    ensures |NumberItem(x).Text()| <= |it.Text()|
    ensures |NumberItem(x).Text()| == |it.Text()| ==> it.Text() == NumberItem(x).Text()
  {
    DecimalIsShortest(ElemText(it.Value()), x);
    if it.Quoted? {
      BodyIsLonger(it.body);
    }
  }

  lemma {:induction false} CoreIsShortest(items: seq<Item>, short: seq<Item>)
    requires |items| == |short| > 0
    requires forall i :: 0 <= i < |items| ==> |short[i].Text()| <= |items[i].Text()|
    requires forall i :: 0 <= i < |items| && |short[i].Text()| == |items[i].Text()| ==> items[i].Text() == short[i].Text()
    ensures |ItemsCore(short)| <= |ItemsCore(items)|
    ensures |ItemsCore(short)| == |ItemsCore(items)| ==> ItemsCore(items) == ItemsCore(short)
    decreases |items|
  {
    hide Item.Text;
    if |items| > 1 {
      CoreIsShortest(items[1..], short[1..]);
    }
  }

  lemma EmptyIsShortest(text: bytes, elems: seq<Elem>)
    requires LinearText(text, elems) && elems == []
    ensures |text| >= 2 && (|text| == 2 ==> text == [LBRACE, RBRACE])
  {
    if items :| OneLevel(text, items) && elems == Values(items) {
      ValuesAt(items);
    }
    assert NestedEmpty(text);
    var n: nat :| n >= 1 && text == Repeat(LBRACE, n) + Repeat(RBRACE, n);
    assert Repeat(LBRACE, 1) + Repeat(RBRACE, 1) == [LBRACE, RBRACE];
  }

  lemma ItemsAreShortest(items: seq<Item>, a: seq<uint64>)
    requires |items| == |a| > 0
    requires forall i :: 0 <= i < |items| ==> ParseUint(ElemText(items[i].Value())) == Some(a[i])
    ensures |Joined(a)| <= |ItemsCore(items)| && (|Joined(a)| == |ItemsCore(items)| ==> ItemsCore(items) == Joined(a))
  {
    hide Item.Text, Item.Value, ParseUint;
    forall i: int | 0 <= i < |items|
      ensures |NumberItem(a[i]).Text()| <= |items[i].Text()|
      ensures |NumberItem(a[i]).Text()| == |items[i].Text()| ==> items[i].Text() == NumberItem(a[i]).Text()
    {
      NumberItemIsShortest(items[i], a[i]);
    }
    CoreIsShortest(items, NumberItems(a));
    JoinedIsItemsCore(a);
  }

  lemma ItemsTextIsShortest(text: bytes, items: seq<Item>, a: seq<uint64>)
    requires OneLevel(text, items) && a != [] && ParseNumbers(Values(items), 0) == Numbers(a)
    ensures |Joined(a)| + 2 <= |text| && (|Joined(a)| + 2 == |text| ==> text == [LBRACE] + Joined(a) + [RBRACE])
  {
    ValuesAt(items);
    ParseNumbersAre(Values(items), 0);
    hide ParseNumbers, ParseUint, ElemText, Item.Value, Values, Item.Text, WellFormedItems;
    assert forall i :: 0 <= i < |items| ==> ParseUint(ElemText(Values(items)[0 + i])) == Some(a[i]);
    ItemsAreShortest(items, a);
    ItemsTextCore(items);
    hide ItemsText, ItemsCore, Joined;
  }

  /** What Value prints is the one shortest text that is read back as the slice. */
  lemma PrintedIsShortest(text: bytes, a: seq<uint64>)
    requires ScansTo(text, a)
    ensures var printed := Printed(Slice(a)).text;
      |printed| <= |text| && (|printed| == |text| ==> text == printed)
  {
    var elems :| LinearText(text, elems) && ParseNumbers(elems, 0) == Numbers(a);
    hide ParseNumbers, OneLevel;
    if a == [] {
      ParseNumbersAre(elems, 0);
      EmptyIsShortest(text, elems);
    } else {
      ParseNumbersAre(elems, 0);
      var items: seq<Item> :| OneLevel(text, items) && elems == Values(items);
      ItemsTextIsShortest(text, items, a);
    }
  }

  /** Value then Scan, whatever the destination held before. */
  method RoundTrip(a: Slice, dest: Destination) returns (err: Option<ScanError>)
    modifies dest
    ensures err.None? && dest.a == a
  {
    var v := Value(a);
    err := dest.Scan(v);
    if a.Slice? {
      PrintedScansTo(a.items, a.items);
      if err.None? {
        PrintedScansTo(a.items, dest.a.items);
      }
    }
  }
}
