/** The PostgreSQL array text reader of db/dbtypes/internal/arrays.go.

  The reader is kept as the loops of the source. What a linear array text is, and which elements
  it denotes, is defined independently of the reader by a grammar (`LinearText`) that builds texts
  from items. The two are connected in both directions by `ScanLinearArray`. */
module ArrayText {
  import opened Options

  newtype byte = x: int | 0 <= x < 256

  type bytes = seq<byte>

  const LBRACE: byte := 123
  const RBRACE: byte := 125
  const QUOTE: byte := 34
  const BACKSLASH: byte := 92
  const COMMA: byte := 44
  const NULL_TEXT: bytes := [78, 85, 76, 76]

  /** An array element: SQL NULL (a nil slice in the source) or the bytes between the separators. */
  datatype Elem = Null | Bytes(text: bytes)

  datatype ArrayError =
    | ExpectedOpen
    | Unexpected(found: byte, offset: nat)
    | ExpectedClose(offset: nat)
    | MismatchedDimensions
    | NotLinear(dims: seq<nat>)

  // ---------------------------------------------------------------------------------------------
  // The grammar

  /** One byte inside a quoted element, as written in the text. */
  datatype QuotedByte = Plain(b: byte) | Escaped(b: byte) {
    predicate WellFormed() {
      Plain? ==> b != QUOTE && b != BACKSLASH
    }

    function Text(): bytes {
      if Plain? then [b] else [BACKSLASH, b]
    }
  }

  datatype Item = Bare(text: bytes) | Quoted(body: seq<QuotedByte>) {
    predicate WellFormed() {
      match this
      case Bare(t) => t != [] && t[0] != LBRACE && t[0] != QUOTE && COMMA !in t && RBRACE !in t
      case Quoted(body) => forall q <- body :: q.WellFormed()
    }

    function Text(): bytes {
      match this
      case Bare(t) => t
      case Quoted(body) => [QUOTE] + BodyText(body) + [QUOTE]
    }

    /** A bare NULL is the SQL null; a quoted "NULL" is four letters. */
    function Value(): Elem {
      match this
      case Bare(t) => if t == NULL_TEXT then Null else Bytes(t)
      case Quoted(body) => Bytes(BodyValue(body))
    }
  }

  function BodyText(body: seq<QuotedByte>): bytes {
    if body == [] then [] else body[0].Text() + BodyText(body[1..])
  }

  function BodyValue(body: seq<QuotedByte>): bytes {
    if body == [] then [] else [body[0].b] + BodyValue(body[1..])
  }

  ghost predicate WellFormedItems(items: seq<Item>) {
    items != [] && forall it <- items :: it.WellFormed()
  }

  /** The items separated by commas and closed by a brace. */
  function ItemsText(items: seq<Item>): bytes
    requires items != []
  {
    items[0].Text() + if |items| == 1 then [RBRACE] else [COMMA] + ItemsText(items[1..])
  }

  function Values(items: seq<Item>): seq<Elem> {
    if items == [] then [] else [items[0].Value()] + Values(items[1..])
  }

  function Repeat(b: byte, n: nat): (r: bytes)
    ensures |r| == n && forall k :: 0 <= k < n ==> r[k] == b
  {
    seq(n, _ => b)
  }

  /** n opening braces followed by n closing ones, n at least 1. */
  ghost predicate NestedEmpty(src: bytes) {
    exists n: nat :: n >= 1 && src == Repeat(LBRACE, n) + Repeat(RBRACE, n)
  }

  ghost predicate OneLevel(src: bytes, items: seq<Item>) {
    WellFormedItems(items) && src == [LBRACE] + ItemsText(items)
  }

  /** `src` is a linear array text whose elements are `elems`. */
  ghost predicate LinearText(src: bytes, elems: seq<Elem>) {
    (NestedEmpty(src) && elems == []) ||
    exists items :: OneLevel(src, items) && elems == Values(items)
  }

  /** Any element can be written: SQL NULL bare, anything else in quotes, with quotes and backslashes escaped. */
  function Written(e: Elem): Item {
    if e.Null? then Bare(NULL_TEXT) else Quoted(Body(e.text))
  }

  function Body(t: bytes): (body: seq<QuotedByte>)
    ensures |body| == |t|
    ensures forall i :: 0 <= i < |t| ==> body[i] == if t[i] == QUOTE || t[i] == BACKSLASH then Escaped(t[i]) else Plain(t[i])
  {
    seq(|t|, i requires 0 <= i < |t| => if t[i] == QUOTE || t[i] == BACKSLASH then Escaped(t[i]) else Plain(t[i]))
  }

  lemma {:induction false} WrittenBody(t: bytes)
    ensures BodyValue(Body(t)) == t
  {
    if t != [] {
      WrittenBody(t[1..]);
      assert Body(t)[1..] == Body(t[1..]);
      assert t == [t[0]] + t[1..];
    }
  }

  lemma WrittenIs(e: Elem)
    ensures Written(e).WellFormed() && Written(e).Value() == e
  {
    if e.Bytes? {
      WrittenBody(e.text);
    }
  }

  lemma {:induction false} WrittenItems(elems: seq<Elem>) returns (items: seq<Item>)
    requires elems != []
    ensures WellFormedItems(items) && Values(items) == elems
    decreases |elems|
  {
    hide Item.Value, Item.WellFormed;
    items := [Written(elems[0])];
    WrittenIs(elems[0]);
    if |elems| > 1 {
      var rest := WrittenItems(elems[1..]);
      items := items + rest;
      assert items[1..] == rest;
      assert elems == [elems[0]] + elems[1..];
    } else {
      assert items[1..] == [] && elems == [elems[0]];
    }
  }

  /** Every list of elements, whatever bytes they hold, has a text. */
  lemma EveryListHasText(elems: seq<Elem>) returns (text: bytes)
    ensures LinearText(text, elems)
  {
    if elems == [] {
      text := Repeat(LBRACE, 1) + Repeat(RBRACE, 1);
      assert NestedEmpty(text);
    } else {
      var items := WrittenItems(elems);
      text := [LBRACE] + ItemsText(items);
      assert OneLevel(text, items);
    }
  }

  // ---------------------------------------------------------------------------------------------
  // A functional reader, used to connect the loops with the grammar

  function Prepend<T>(xs: seq<T>, rest: Option<seq<T>>): Option<seq<T>> {
    if rest.None? then None else Some(xs + rest.value)
  }

  lemma PrependTwice<T>(xs: seq<T>, ys: seq<T>, rest: Option<seq<T>>)
    ensures Prepend(xs, Prepend(ys, rest)) == Prepend(xs + ys, rest)
    ensures Prepend([], rest) == rest
  {
    if rest.Some? {
      assert xs + (ys + rest.value) == (xs + ys) + rest.value;
      assert [] + rest.value == rest.value;
    }
  }

  /** A read that first consumed k bytes standing for `v`. */
  function Shift(v: bytes, k: nat, rest: Option<(bytes, nat)>): Option<(bytes, nat)> {
    if rest.None? then None else Some((v + rest.value.0, k + rest.value.1))
  }

  lemma ShiftTwice(v: bytes, k: nat, w: bytes, m: nat, rest: Option<(bytes, nat)>)
    ensures Shift(v, k, Shift(w, m, rest)) == Shift(v + w, k + m, rest)
    ensures Shift([], 0, rest) == rest
  {
    if rest.Some? {
      assert v + (w + rest.value.0) == (v + w) + rest.value.0;
      assert [] + rest.value.0 == rest.value.0;
    }
  }

  /** Reads the rest of a quoted element after its opening quote: value and length consumed. */
  function ReadQuoted(s: bytes, escape: bool): Option<(bytes, nat)> {
    if s == [] then None
    else if !escape && s[0] == QUOTE then Some(([], 1))
    else
      var esc := !escape && s[0] == BACKSLASH;
      Shift(if esc then [] else [s[0]], 1, ReadQuoted(s[1..], esc))
  }

  /** Number of bytes before the first delimiter or closing brace, or None without one. */
  function ReadBare(s: bytes): (r: Option<nat>)
    ensures r.Some? ==> r.value < |s|
  {
    if s == [] then None
    else if s[0] == COMMA || s[0] == RBRACE then Some(0)
    else match ReadBare(s[1..]) case None => None case Some(n) => Some(n + 1)
  }

  /** One element at the front of s: its value and the number of bytes it takes. */
  function ReadElem(s: bytes): Option<(Elem, nat)> {
    if s == [] || s[0] == LBRACE then None
    else if s[0] == QUOTE then
      match ReadQuoted(s[1..], false)
      case None => None
      case Some((v, n)) => Some((Bytes(v), n + 1))
    else
      match ReadBare(s)
      case None => None
      case Some(n) =>
        if n == 0 then None
        else Some((if s[..n] == NULL_TEXT then Null else Bytes(s[..n]), n))
  }

  lemma {:induction false} ReadQuotedBounds(s: bytes, escape: bool)
    ensures var r := ReadQuoted(s, escape); r.Some? ==> 1 <= r.value.1 <= |s|
  {
    if s != [] && (escape || s[0] != QUOTE) {
      ReadQuotedBounds(s[1..], !escape && s[0] == BACKSLASH);
    }
  }

  /** Elements up to the brace that ends the text. */
  function ReadElems(s: bytes): Option<seq<Elem>>
    decreases |s|
  {
    match ReadElem(s)
    case None => None
    case Some((e, n)) =>
      if n == 0 || n >= |s| then None
      else if s[n] == COMMA then Prepend([e], ReadElems(s[n + 1..]))
      else if s[n] == RBRACE && n + 1 == |s| then Some([e])
      else None
  }

  // ---------------------------------------------------------------------------------------------
  // Functional reader and grammar agree

  lemma {:induction false} QuotedCompletes(body: seq<QuotedByte>, tail: bytes)
    requires forall q <- body :: q.WellFormed()
    ensures ReadQuoted(BodyText(body) + [QUOTE] + tail, false)
         == Some((BodyValue(body), |BodyText(body)| + 1))
  {
    var s := BodyText(body) + [QUOTE] + tail;
    if body == [] {
      assert s[0] == QUOTE;
    } else {
      var rest := BodyText(body[1..]) + [QUOTE] + tail;
      QuotedCompletes(body[1..], tail);
      if body[0].Plain? {
        assert body[0].WellFormed();
        assert BodyText(body) == [body[0].b] + BodyText(body[1..]);
        assert s[0] == body[0].b && s[1..] == rest;
        assert ReadQuoted(s, false) == Shift([s[0]], 1, ReadQuoted(rest, false));
      } else {
        assert BodyText(body) == [BACKSLASH, body[0].b] + BodyText(body[1..]);
        assert s[0] == BACKSLASH && s[1..] == [body[0].b] + rest;
        assert s[1..][1..] == rest;
        ReadEscaped(s);
      }
    }
  }

  lemma ReadEscaped(s: bytes)
    requires |s| >= 2 && s[0] == BACKSLASH
    ensures ReadQuoted(s, false) == Shift([s[1]], 2, ReadQuoted(s[1..][1..], false))
  {
    var rest := ReadQuoted(s[1..][1..], false);
    assert ReadQuoted(s[1..], true) == Shift([s[1]], 1, rest);
    assert ReadQuoted(s, false) == Shift([], 1, ReadQuoted(s[1..], true));
    ShiftTwice([], 1, [s[1]], 1, rest);
    assert [] + [s[1]] == [s[1]];
  }

  lemma BodyBefore(q: QuotedByte, rest: seq<QuotedByte>)
    ensures BodyText([q] + rest) == q.Text() + BodyText(rest)
    ensures BodyValue([q] + rest) == [q.b] + BodyValue(rest)
  {
    assert ([q] + rest)[1..] == rest;
  }

  lemma {:induction false} QuotedIsBody(s: bytes) returns (body: seq<QuotedByte>)
    requires ReadQuoted(s, false).Some?
    ensures forall q <- body :: q.WellFormed()
    ensures var (v, n) := ReadQuoted(s, false).value;
      v == BodyValue(body) && n == |BodyText(body)| + 1 <= |s| && s[..n] == BodyText(body) + [QUOTE]
    decreases |s|
  {
    if s[0] == QUOTE {
      body := [];
    } else if s[0] == BACKSLASH {
      assert ReadQuoted(s[1..], true).Some?;
      ReadEscaped(s);
      assert s[1..][1..] == s[2..];
      hide BodyText, BodyValue, ReadQuoted;
      var rest := QuotedIsBody(s[2..]);
      BodyBefore(Escaped(s[1]), rest);
      body := [Escaped(s[1])] + rest;
      var n := ReadQuoted(s, false).value.1;
      assert s[..n] == [s[0], s[1]] + s[2..][..n - 2];
    } else {
      assert ReadQuoted(s, false) == Shift([s[0]], 1, ReadQuoted(s[1..], false));
      hide BodyText, BodyValue, ReadQuoted;
      var rest := QuotedIsBody(s[1..]);
      BodyBefore(Plain(s[0]), rest);
      body := [Plain(s[0])] + rest;
      var n := ReadQuoted(s, false).value.1;
      assert s[..n] == [s[0]] + s[1..][..n - 1];
    }
  }

  lemma {:induction false} BareStops(s: bytes)
    ensures ReadBare(s).Some? ==>
      var n := ReadBare(s).value; COMMA !in s[..n] && RBRACE !in s[..n] && (s[n] == COMMA || s[n] == RBRACE)
    ensures ReadBare(s).None? ==> COMMA !in s && RBRACE !in s
  {
    if s != [] && s[0] != COMMA && s[0] != RBRACE {
      BareStops(s[1..]);
      match ReadBare(s[1..])
      case Some(n) => assert s[..n + 1] == [s[0]] + s[1..][..n];
      case None => assert s == [s[0]] + s[1..];
    }
  }

  /** The first stop is where a stop-free prefix ends. */
  lemma BareCompletes(t: bytes, c: byte, tail: bytes)
    requires COMMA !in t && RBRACE !in t && (c == COMMA || c == RBRACE)
    ensures ReadBare(t + [c] + tail) == Some(|t|)
  {
    var s := t + [c] + tail;
    BareStops(s);
    assert s[|t|] == c && c in s;
    var n := ReadBare(s).value;
    assert s[..|t|] == t;
    assert forall k :: 0 <= k < |t| ==> s[k] in t;
    assert forall k :: 0 <= k < n ==> s[k] in s[..n];
  }

  lemma BareItemCompletes(t: bytes, c: byte, tail: bytes)
    requires Bare(t).WellFormed() && (c == COMMA || c == RBRACE)
    ensures ReadElem(t + [c] + tail) == Some((Bare(t).Value(), |t|))
  {
    hide ReadBare;
    var s := t + [c] + tail;
    BareCompletes(t, c, tail);
    assert s[0] == t[0] && s[..|t|] == t;
  }

  lemma QuotedItemCompletes(body: seq<QuotedByte>, tail: bytes)
    requires Quoted(body).WellFormed()
    ensures ReadElem(Quoted(body).Text() + tail) == Some((Quoted(body).Value(), |Quoted(body).Text()|))
  {
    hide ReadQuoted, BodyText, BodyValue;
    var s := Quoted(body).Text() + tail;
    QuotedCompletes(body, tail);
    assert s[0] == QUOTE && s[1..] == BodyText(body) + [QUOTE] + tail;
  }

  lemma ItemCompletes(it: Item, c: byte, tail: bytes)
    requires it.WellFormed() && (c == COMMA || c == RBRACE)
    ensures ReadElem(it.Text() + [c] + tail) == Some((it.Value(), |it.Text()|))
    ensures |it.Text()| > 0
  {
    hide ReadElem;
    match it {
      case Bare(t) =>
        BareItemCompletes(t, c, tail);
      case Quoted(body) =>
        QuotedItemCompletes(body, [c] + tail);
        assert it.Text() + [c] + tail == it.Text() + ([c] + tail);
    }
  }

  lemma ElemIsItem(s: bytes) returns (it: Item)
    requires ReadElem(s).Some?
    ensures it.WellFormed()
    ensures var (e, n) := ReadElem(s).value;
      e == it.Value() && 0 < n <= |s| && s[..n] == it.Text()
  {
    if s[0] == QUOTE {
      var body := QuotedIsBody(s[1..]);
      it := Quoted(body);
      var n := ReadElem(s).value.1;
      assert s[..n] == [QUOTE] + s[1..][..n - 1];
    } else {
      BareStops(s);
      var n := ReadBare(s).value;
      it := Bare(s[..n]);
    }
  }

  lemma {:induction false} ItemsComplete(items: seq<Item>)
    requires WellFormedItems(items)
    ensures ReadElems(ItemsText(items)) == Some(Values(items))
    decreases |items|
  {
    var s := ItemsText(items);
    var n := |items[0].Text()|;
    if |items| == 1 {
      ItemCompletes(items[0], RBRACE, []);
      assert s == items[0].Text() + [RBRACE] + [];
      assert Values(items) == [items[0].Value()] by { assert items[1..] == []; }
    } else {
      ItemCompletes(items[0], COMMA, ItemsText(items[1..]));
      assert s == items[0].Text() + [COMMA] + ItemsText(items[1..]);
      assert s[n] == COMMA && s[n + 1..] == ItemsText(items[1..]);
      ItemsComplete(items[1..]);
    }
  }

  lemma OneItem(it: Item)
    requires it.WellFormed()
    ensures WellFormedItems([it]) && ItemsText([it]) == it.Text() + [RBRACE] && Values([it]) == [it.Value()]
  {
    assert [it][1..] == [];
  }

  lemma ItemBefore(it: Item, rest: seq<Item>)
    requires it.WellFormed() && WellFormedItems(rest)
    ensures WellFormedItems([it] + rest)
    ensures ItemsText([it] + rest) == it.Text() + [COMMA] + ItemsText(rest)
    ensures Values([it] + rest) == [it.Value()] + Values(rest)
  {
    assert ([it] + rest)[1..] == rest;
  }

  lemma {:induction false} ElemsAreItems(s: bytes) returns (items: seq<Item>)
    requires ReadElems(s).Some?
    ensures WellFormedItems(items) && s == ItemsText(items) && ReadElems(s).value == Values(items)
    decreases |s|
  {
    hide ReadElem, ItemsText, Values, WellFormedItems;
    var it := ElemIsItem(s);
    var (e, n) := ReadElem(s).value;
    if s[n] == COMMA {
      var rest := ElemsAreItems(s[n + 1..]);
      ItemBefore(it, rest);
      items := [it] + rest;
      assert s == s[..n] + [COMMA] + s[n + 1..];
    } else {
      OneItem(it);
      items := [it];
      assert s == s[..n] + [RBRACE];
    }
  }

  // ---------------------------------------------------------------------------------------------
  // What the whole reader accepts, as a function

  function CountOpens(s: bytes): (n: nat)
    ensures n <= |s|
    ensures forall k :: 0 <= k < n ==> s[k] == LBRACE
    ensures n < |s| ==> s[n] != LBRACE
  {
    if s == [] || s[0] != LBRACE then 0 else 1 + CountOpens(s[1..])
  }

  /** The elements of a linear array text, or None when `src` is not one. */
  function ReadLinear(src: bytes): Option<seq<Elem>> {
    var n := CountOpens(src);
    if n >= 1 && n < |src| && src[n] == RBRACE then
      if src[n..] == Repeat(RBRACE, n) then Some([]) else None
    else if n == 1 then ReadElems(src[1..])
    else None
  }

  lemma ItemsTextStart(items: seq<Item>)
    requires WellFormedItems(items)
    ensures ItemsText(items) != []
    ensures ItemsText(items)[0] != LBRACE && ItemsText(items)[0] != RBRACE
  {
    var t := items[0].Text();
    assert items[0].WellFormed();
    assert t != [] && ItemsText(items)[0] == t[0];
  }

  lemma CountOpensIs(src: bytes, n: nat)
    requires n <= |src| && (forall k :: 0 <= k < n ==> src[k] == LBRACE)
    requires n < |src| ==> src[n] != LBRACE
    ensures CountOpens(src) == n
  {
  }

  lemma ReadLinearIffLinearText(src: bytes, elems: seq<Elem>)
    ensures ReadLinear(src) == Some(elems) <==> LinearText(src, elems)
  {
    var n := CountOpens(src);
    if ReadLinear(src) == Some(elems) {
      if n >= 1 && n < |src| && src[n] == RBRACE {
        assert src == src[..n] + src[n..];
        assert src[..n] == Repeat(LBRACE, n);
        assert NestedEmpty(src);
      } else {
        var items := ElemsAreItems(src[1..]);
        assert src == [LBRACE] + src[1..];
        assert OneLevel(src, items);
      }
    }
    if NestedEmpty(src) && elems == [] {
      var m: nat :| m >= 1 && src == Repeat(LBRACE, m) + Repeat(RBRACE, m);
      CountOpensIs(src, m);
      assert src[m..] == Repeat(RBRACE, m);
    }
    forall items | OneLevel(src, items) && elems == Values(items)
      ensures ReadLinear(src) == Some(elems)
    {
      ItemsTextStart(items);
      assert src[1..] == ItemsText(items);
      assert src[1] == ItemsText(items)[0];
      CountOpensIs(src, 1);
      ItemsComplete(items);
    }
  }

  // ---------------------------------------------------------------------------------------------
  // The loops of the source

  /** bytes.HasPrefix(src[i:], prefix) */
  predicate HasPrefixAt(src: bytes, i: nat, prefix: bytes)
    requires i <= |src|
  {
    prefix <= src[i..]
  }

  /** The quoted branch of the Element loop, from the byte after the opening quote. Without a closing
      quote everything is consumed and no element results. */
  method ScanQuoted(src: bytes, start: nat) returns (elem: Option<bytes>, i: nat)
    requires start <= |src|
    ensures start <= i <= |src|
    ensures var r := ReadQuoted(src[start..], false);
      if r.Some? then elem == Some(r.value.0) && i == start + r.value.1 else elem == None && i == |src|
  {
    var acc: bytes := [];
    var escape := false;
    i := start;
    ShiftTwice([], 0, [], 0, ReadQuoted(src[start..], false));
    while i < |src|
      invariant start <= i <= |src|
      invariant ReadQuoted(src[start..], false) == Shift(acc, i - start, ReadQuoted(src[i..], escape))
    {
      assert src[i..][0] == src[i] && src[i..][1..] == src[i + 1..];
      ghost var esc := !escape && src[i] == BACKSLASH;
      ShiftTwice(acc, i - start, if esc then [] else [src[i]], 1, ReadQuoted(src[i + 1..], esc));
      assert acc + [] == acc;
      if escape {
        acc := acc + [src[i]];
        escape := false;
      } else if src[i] == BACKSLASH {
        escape := true;
      } else if src[i] == QUOTE {
        return Some(acc), i + 1;
      } else {
        acc := acc + [src[i]];
      }
      i := i + 1;
    }
    elem := None;
  }

  /** The default branch of the Element loop: runs to a delimiter or a closing brace. */
  method ScanBare(src: bytes, start: nat, del: bytes) returns (found: bool, i: nat)
    requires start <= |src|
    ensures start <= i <= |src| && (found <==> i < |src|)
    ensures found ==> HasPrefixAt(src, i, del) || src[i] == RBRACE
    ensures del == [COMMA] ==> ReadBare(src[start..]) == if found then Some(i - start) else None
  {
    i := start;
    while i < |src|
      invariant start <= i <= |src|
      invariant del == [COMMA] ==> ReadBare(src[start..]) == match ReadBare(src[i..])
        case None => None
        case Some(n) => Some(i - start + n)
    {
      assert src[i..][0] == src[i] && src[i..][1..] == src[i + 1..];
      if HasPrefixAt(src, i, del) || src[i] == RBRACE {
        return true, i;
      }
      i := i + 1;
    }
    found := false;
  }

  /** Every counter at or beyond the open depth has been closed at least once. */
  ghost predicate ClosedCounted(dims: seq<nat>, depth: nat) {
    depth <= |dims| && forall k :: depth <= k < |dims| ==> dims[k] >= 1
  }

  /** The Element label: descends through braces and reads at most one element. */
  method ScanElement(src: bytes, del: bytes, start: nat, depth0: nat, dims0: seq<nat>, elems0: seq<Elem>)
    returns (err: Option<ArrayError>, i: nat, depth: nat, dims: seq<nat>, elems: seq<Elem>)
    requires del != [] && start <= |src| && 0 < depth0 && ClosedCounted(dims0, depth0)
    ensures start <= i <= |src| && depth0 <= depth && |dims| == |dims0| && ClosedCounted(dims, depth)
    ensures err.Some? ==> i < |src| && err.value == Unexpected(src[i], i)
    ensures |dims0| == 1 ==> dims == dims0
    ensures |dims0| == 1 && del == [COMMA] ==>
      var r := ReadElem(src[start..]);
      if r.Some? then err == None && elems == elems0 + [r.value.0] && i == start + r.value.1 && r.value.1 > 0
      else err.Some? || (elems == elems0 && (i < |src| ==> src[i] == LBRACE))
  {
    err, i, depth, dims, elems := None, start, depth0, dims0, elems0;
    while i < |src|
      invariant start <= i <= |src| && depth0 <= depth && |dims| == |dims0| && ClosedCounted(dims, depth)
      invariant elems == elems0
      invariant |dims0| == 1 ==> dims == dims0 && i == start
    {
      assert src[i..][0] == src[i] && src[i..][1..] == src[i + 1..];
      if src[i] == LBRACE {
        if depth == |dims| {
          return;
        }
        depth := depth + 1;
        dims := dims[depth - 1 := 0];
        i := i + 1;
      } else if src[i] == QUOTE {
        var elem, after := ScanQuoted(src, i + 1);
        i := after;
        if elem.Some? {
          elems := elems + [Bytes(elem.value)];
        }
        return;
      } else {
        var found, stop := ScanBare(src, i, del);
        if found {
          var elem := src[i..stop];
          assert elem == src[i..][..stop - i];
          if |elem| == 0 {
            err := Some(Unexpected(src[stop], stop));
          } else {
            elems := elems + [if elem == NULL_TEXT then Null else Bytes(elem)];
          }
        }
        i := stop;
        return;
      }
    }
  }

  /** parseArray. Each round of the outer loop is one pass from the Element label to the `goto
      Element` behind a delimiter, which consumes at least one byte. */
  method ParseArray(src: bytes, del: bytes)
    returns (err: Option<ArrayError>, dims: seq<nat>, elems: seq<Elem>)
    requires del != []
    ensures err == Some(ExpectedOpen) <==> src == [] || src[0] != LBRACE
    ensures err.Some? ==> !err.value.NotLinear?
    ensures err.Some? && err.value.Unexpected? ==> err.value.offset < |src| && src[err.value.offset] == err.value.found
    ensures err.Some? && err.value.ExpectedClose? ==> err.value.offset == |src|
    ensures err.Some? && err.value.MismatchedDimensions? ==>
      exists k :: 0 <= k < |dims| && dims[k] > 0 && |elems| % dims[k] != 0
    ensures err.None? ==> forall k :: 0 <= k < |dims| ==> dims[k] > 0 && |elems| % dims[k] == 0
    ensures del == [COMMA] && err.None? && |dims| <= 1 ==> ReadLinear(src) == Some(elems)
    ensures del == [COMMA] && err.None? && |dims| == 1 ==> dims == [|elems|]
    ensures del == [COMMA] && (err.Some? || |dims| > 1) ==> ReadLinear(src) == None
  {
    hide ReadElems, CountOpens, Repeat;
    err, dims, elems := None, [], [];
    if |src| < 1 || src[0] != LBRACE {
      return Some(ExpectedOpen), [], [];
    }
    var depth, i := 0, 0;

    while i < |src| && src[i] == LBRACE
      invariant depth == i <= |src|
      invariant forall k :: 0 <= k < i ==> src[k] == LBRACE
    {
      depth, i := depth + 1, i + 1;
    }
    ghost var opens := i;
    CountOpensIs(src, opens);

    if i < |src| && src[i] == RBRACE {
      assert src[i..] == src[opens..];
    } else {
      dims := seq(i, _ => 0);
      err, i, depth, dims, elems := ParseBody(src, del, i, depth, dims);
      if err.Some? {
        return err, [], [];
      }
    }

    err, i, depth := CloseBraces(src, i, depth);
    if opens < |src| && src[opens] == RBRACE {
      ClosesAll(src, opens);
    }
    if err.Some? {
      return err, [], [];
    }
    if depth > 0 {
      return Some(ExpectedClose(i)), dims, elems;
    }
    err := CheckDimensions(dims, |elems|);
  }

  lemma ClosesAll(src: bytes, opens: nat)
    requires opens <= |src|
    ensures src[opens..] == Repeat(RBRACE, opens) <==>
      |src| == 2 * opens && forall k :: opens <= k < |src| ==> src[k] == RBRACE
  {
    if src[opens..] == Repeat(RBRACE, opens) {
      assert forall k :: opens <= k < |src| ==> src[k] == src[opens..][k - opens];
    }
  }

  /** The Close label: nothing but closing braces may follow, at most one for each open level. */
  method CloseBraces(src: bytes, start: nat, depth0: nat)
    returns (err: Option<ArrayError>, i: nat, depth: nat)
    requires start <= |src|
    ensures start <= i <= |src|
    ensures err.None? ==> i == |src| && depth0 - depth == |src| - start
    ensures err.None? ==> forall k :: start <= k < |src| ==> src[k] == RBRACE
    ensures err.Some? ==> i < |src| && err.value == Unexpected(src[i], i)
    ensures err.Some? ==> src[i] != RBRACE || |src| - start > depth0
  {
    err, i, depth := None, start, depth0;
    while i < |src|
      invariant start <= i <= |src| && depth0 - depth == i - start
      invariant forall k :: start <= k < i ==> src[k] == RBRACE
    {
      if src[i] == RBRACE && depth > 0 {
        depth, i := depth - 1, i + 1;
      } else {
        return Some(Unexpected(src[i], i)), i, depth;
      }
    }
  }

  /** The closing loop of parseArray over the dimension counters. */
  method CheckDimensions(dims: seq<nat>, count: nat) returns (err: Option<ArrayError>)
    requires forall k :: 0 <= k < |dims| ==> dims[k] > 0
    ensures err.None? <==> forall k :: 0 <= k < |dims| ==> count % dims[k] == 0
    ensures err.Some? ==> err.value == MismatchedDimensions
  {
    err := None;
    for k := 0 to |dims|
      invariant err.None? <==> forall j :: 0 <= j < k ==> count % dims[j] == 0
      invariant err.Some? ==> err.value == MismatchedDimensions
    {
      if count % dims[k] != 0 {
        err := Some(MismatchedDimensions);
      }
    }
  }

  /** The loop behind the Element loop: counts and closes, and stops early behind a delimiter, where the
      source jumps back to Element. */
  method CloseElement(src: bytes, del: bytes, start: nat, depth0: nat, dims0: seq<nat>)
    returns (err: Option<ArrayError>, i: nat, depth: nat, dims: seq<nat>, again: bool)
    requires del != [] && start <= |src| && 0 < depth0 && ClosedCounted(dims0, depth0)
    ensures start <= i <= |src| && |dims| == |dims0| && ClosedCounted(dims, depth)
    ensures err.Some? ==> i < |src| && err.value == Unexpected(src[i], i)
    ensures again ==> depth > 0 && i > start
    ensures err.None? && !again ==> i == |src|
    ensures |dims0| == 1 && del == [COMMA] ==>
      if start == |src| then err.None? && !again && depth == 1 && dims == dims0
      else if src[start] == COMMA then
        err.None? && again && i == start + 1 && depth == 1 && dims == [dims0[0] + 1]
      else if src[start] == RBRACE && start + 1 == |src| then
        err.None? && !again && depth == 0 && dims == [dims0[0] + 1]
      else err.Some?
  {
    err, i, depth, dims, again := None, start, depth0, dims0, false;
    while i < |src|
      invariant start <= i <= |src| && |dims| == |dims0| && ClosedCounted(dims, depth)
      invariant |dims0| == 1 && del == [COMMA] ==>
        if i == start then depth == 1 && dims == dims0
        else i == start + 1 && src[start] == RBRACE && depth == 0 && dims == [dims0[0] + 1]
    {
      if HasPrefixAt(src, i, del) && depth > 0 {
        dims := dims[depth - 1 := dims[depth - 1] + 1];
        i := i + |del|;
        again := true;
        return;
      } else if src[i] == RBRACE && depth > 0 {
        dims := dims[depth - 1 := dims[depth - 1] + 1];
        depth := depth - 1;
        i := i + 1;
      } else {
        err := Some(Unexpected(src[i], i));
        return;
      }
    }
  }

  /** What one round of the outer loop has read, when the text before position `at` held `before`. */
  lemma ReadElemsRound(src: bytes, start: nat, at: nat, before: seq<Elem>)
    requires start <= at <= |src|
    requires ReadElems(src[start..]) == Prepend(before, ReadElems(src[at..]))
    ensures ReadElem(src[at..]) == None ==> ReadElems(src[start..]) == None
    ensures ReadElem(src[at..]).Some? ==>
      var (e, n) := ReadElem(src[at..]).value;
        && 0 < n && at + n <= |src|
        && ReadElems(src[start..]) == (
          if at + n == |src| then None
          else if src[at + n] == COMMA then Prepend(before + [e], ReadElems(src[at + n + 1..]))
          else if src[at + n] == RBRACE && at + n + 1 == |src| then Some(before + [e])
          else None)
  {
    hide ReadElem, Item.Text, Item.Value, Item.WellFormed;
    var s := src[at..];
    if ReadElem(s).Some? {
      var it := ElemIsItem(s);
      var (e, n) := ReadElem(s).value;
      if n < |s| {
        assert s[n] == src[at + n] && s[n + 1..] == src[at + n + 1..];
        PrependTwice(before, [e], ReadElems(src[at + n + 1..]));
      }
    }
  }

  /** With a single dimension, what the text from `start` holds, told from the state at the Element label
      (`again`) or behind the last element. */
  ghost predicate Tracks(src: bytes, start: nat, i: nat, depth: nat, dims: seq<nat>, elems: seq<Elem>, again: bool)
    requires start <= |src| && i <= |src| && |dims| == 1
  {
    var whole := ReadElems(src[start..]);
    if again then depth == 1 && dims[0] == |elems| && whole == Prepend(elems, ReadElems(src[i..]))
    else if depth == 0 then dims[0] == |elems| && whole == Some(elems)
    else whole == None
  }

  /** One pass from the Element label to the next jump back, or to the end of the text. */
  method ParseRound(src: bytes, del: bytes, ghost start: nat, i0: nat, depth0: nat, dims0: seq<nat>, elems0: seq<Elem>)
    returns (err: Option<ArrayError>, i: nat, depth: nat, dims: seq<nat>, elems: seq<Elem>, again: bool)
    requires del != [] && start <= i0 <= |src| && 0 < depth0 && ClosedCounted(dims0, depth0)
    requires del == [COMMA] && |dims0| == 1 ==> Tracks(src, start, i0, depth0, dims0, elems0, true)
    ensures i0 <= i <= |src| && |dims| == |dims0| && ClosedCounted(dims, depth)
    ensures err.Some? ==> i < |src| && err.value == Unexpected(src[i], i)
    ensures err.None? && again ==> depth > 0 && i > i0
    ensures err.None? && !again ==> i == |src|
    ensures del == [COMMA] && |dims0| == 1 ==>
      if err.Some? then ReadElems(src[start..]) == None
      else Tracks(src, start, i, depth, dims, elems, again)
  {
    hide ReadElem, ReadElems, Prepend;
    if |dims0| == 1 && del == [COMMA] {
      ReadElemsRound(src, start, i0, elems0);
    }
    err, i, depth, dims, elems := ScanElement(src, del, i0, depth0, dims0, elems0);
    again := false;
    if err.None? {
      err, i, depth, dims, again := CloseElement(src, del, i, depth, dims);
    }
  }

  /** The part of parseArray between the Open and Close labels, entered with all counters zero. */
  method ParseBody(src: bytes, del: bytes, start: nat, depth0: nat, dims0: seq<nat>)
    returns (err: Option<ArrayError>, i: nat, depth: nat, dims: seq<nat>, elems: seq<Elem>)
    requires del != [] && 0 < depth0 == |dims0| && start <= |src|
    requires forall k :: 0 <= k < |dims0| ==> dims0[k] == 0
    ensures |dims| == |dims0| && ClosedCounted(dims, depth)
    ensures err.Some? ==> i < |src| && err.value == Unexpected(src[i], i)
    ensures err.None? ==> i == |src|
    ensures del == [COMMA] && |dims| == 1 ==>
      if err.Some? || depth > 0 then ReadElems(src[start..]) == None
      else ReadElems(src[start..]) == Some(elems) && dims[0] == |elems|
  {
    err, i, depth, dims, elems := None, start, depth0, dims0, [];
    PrependTwice([], elems, ReadElems(src[start..]));
    var again := true;
    while again
      invariant start <= i <= |src| && |dims| == |dims0| && ClosedCounted(dims, depth)
      invariant err.None?
      invariant if again then depth > 0 else i == |src|
      invariant del == [COMMA] && |dims| == 1 ==> Tracks(src, start, i, depth, dims, elems, again)
      decreases |src| - i, again
    {
      err, i, depth, dims, elems, again := ParseRound(src, del, start, i, depth, dims, elems);
      if err.Some? {
        return;
      }
    }
  }

  /** ScanLinearArray with delimiter ','. It succeeds on the linear array texts and on nothing else, and
      returns the elements such a text denotes. */
  method ScanLinearArray(src: bytes) returns (err: Option<ArrayError>, elems: seq<Elem>)
    ensures err.None? ==> LinearText(src, elems)
    ensures err.Some? ==> forall es :: !LinearText(src, es)
  {
    var dims: seq<nat>;
    err, dims, elems := ParseArray(src, [COMMA]);
    if err.None? && |dims| > 1 {
      err := Some(NotLinear(dims));
    }
    forall es ensures ReadLinear(src) == Some(es) <==> LinearText(src, es) {
      ReadLinearIffLinearText(src, es);
    }
    if err.Some? {
      elems := [];
    }
  }
}
