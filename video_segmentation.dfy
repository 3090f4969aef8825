/** The segment editor of the web front end
    (frontend/src/components/VideoSegmentation.jsx): the frame-to-time
    formatter, the three list edits and the checks run before the segments
    are submitted. React state, rendering and the network call are outside
    the model; each edit returns the new list, as the handlers pass their
    edited copy to the state setter. */
module VideoSegmentation {
  import opened Common

  // ---------------------------------------------------------------------
  // Decimal text and parseInt
  // ---------------------------------------------------------------------

  predicate IsDigit(c: char) { '0' <= c <= '9' }

  predicate AllDigits(s: string) { forall i :: 0 <= i < |s| ==> IsDigit(s[i]) }

  function DigitChar(d: nat): (c: char)
    requires d < 10
    ensures IsDigit(c)
  {
    ('0' as int + d) as char
  }

  function DigitValue(c: char): (d: nat)
    requires IsDigit(c)
    ensures d < 10 && DigitChar(d) == c
  {
    c as int - '0' as int
  }

  /** JavaScript's `toString()` of a non-negative integer. */
  function NatToString(n: nat): (s: string)
    ensures |s| >= 1
    ensures AllDigits(s)
  {
    if n < 10 then [DigitChar(n)] else NatToString(n / 10) + [DigitChar(n % 10)]
  }

  /** JavaScript's `toString()` (and template interpolation) of an integer. */
  function IntToString(n: int): string
  {
    if n < 0 then "-" + NatToString(-n) else NatToString(n)
  }

  /** The value of a string of decimal digits. */
  function DecimalValue(ds: string): nat
    requires AllDigits(ds)
  {
    if ds == [] then 0 else DecimalValue(ds[..|ds| - 1]) * 10 + DigitValue(ds[|ds| - 1])
  }

  /** The length of the longest all-digit prefix of `s`. */
  function DigitPrefixLen(s: string): (n: nat)
    ensures n <= |s|
    ensures forall i :: 0 <= i < n ==> IsDigit(s[i])
    ensures n < |s| ==> !IsDigit(s[n])
  {
    if s == [] || !IsDigit(s[0]) then 0 else 1 + DigitPrefixLen(s[1..])
  }

  /** The white space `parseInt` skips: tab, line feed, vertical tab, form
      feed, carriage return, space, no-break space, the line and paragraph
      separators and the byte order mark. */
  predicate IsJsSpace(c: char)
  {
    c as int in {9, 10, 11, 12, 13, 32, 0xA0, 0x2028, 0x2029, 0xFEFF}
  }

  function TrimStart(s: string): (t: string)
    ensures |t| <= |s|
    ensures t == [] || !IsJsSpace(t[0])
  {
    if s != [] && IsJsSpace(s[0]) then TrimStart(s[1..]) else s
  }

  /** The value of the leading run of digits of `u`; `None` when `u` does
      not start with a digit. */
  function ParseDigits(u: string): (r: Option<nat>)
    ensures r.None? <==> u == [] || !IsDigit(u[0])
  {
    var n := DigitPrefixLen(u);
    if n == 0 then None else Some(DecimalValue(u[..n]))
  }

  /** `parseInt(s)` in base 10: leading white space, an optional sign, then
      the longest run of digits; `None` is `NaN`. */
  function ParseInt(s: string): (r: Option<int>)
    ensures r.None? <==>
      var t := TrimStart(s);
      var u := if t != [] && (t[0] == '-' || t[0] == '+') then t[1..] else t;
      u == [] || !IsDigit(u[0])
  {
    var t := TrimStart(s);
    var negative := t != [] && t[0] == '-';
    var u := if t != [] && (t[0] == '-' || t[0] == '+') then t[1..] else t;
    match ParseDigits(u)
    case None => None
    case Some(v) => Some(if negative then -(v as int) else v)
  }

  lemma {:induction false} NatToStringValue(n: nat)
    ensures DecimalValue(NatToString(n)) == n
  {
    if n >= 10 {
      NatToStringValue(n / 10);
      var s := NatToString(n);
      assert s[..|s| - 1] == NatToString(n / 10);
    }
  }

  lemma {:induction false} AllDigitsPrefix(s: string)
    requires AllDigits(s)
    ensures DigitPrefixLen(s) == |s|
  {
    if s != [] {
      AllDigitsPrefix(s[1..]);
    }
  }

  /** `parseInt` reads back what `toString` writes. */
  lemma ParseIntToString(n: int)
    ensures ParseInt(IntToString(n)) == Some(n)
  {
    var m := if n < 0 then -n else n;
    var d := NatToString(m);
    NatToStringValue(m);
    if n < 0 {
      ParseIntNegative(d);
    } else {
      ParseIntStopsAtNonDigit(d, []);
      assert d + [] == d;
    }
  }

  /** A minus sign before digits negates their value. */
  lemma ParseIntNegative(ds: string)
    requires ds != [] && AllDigits(ds)
    ensures ParseInt("-" + ds) == Some(-(DecimalValue(ds) as int))
  {
    var s := "-" + ds;
    assert s[1..] == ds;
    ParseDigitsAll(ds);
    ParseIntMinus(s, DecimalValue(ds));
  }

  /** After a leading minus sign `parseInt` negates the digits' value. */
  lemma ParseIntMinus(s: string, v: nat)
    requires s != [] && s[0] == '-' && ParseDigits(s[1..]) == Some(v)
    ensures ParseInt(s) == Some(-(v as int))
  {
    TrimStartKeeps(s);
  }

  /** A run made only of digits is read whole. */
  lemma ParseDigitsAll(ds: string)
    requires ds != [] && AllDigits(ds)
    ensures ParseDigits(ds) == Some(DecimalValue(ds))
  {
    AllDigitsPrefix(ds);
    assert ds[..|ds|] == ds;
  }

  /** What `TrimStart` leaves is a suffix of its input, and all it drops is
      white space. */
  lemma {:induction false} TrimStartSuffix(s: string)
    ensures var t := TrimStart(s);
      t == s[|s| - |t|..] && forall i :: 0 <= i < |s| - |t| ==> IsJsSpace(s[i])
  {
    if s != [] && IsJsSpace(s[0]) {
      TrimStartSuffix(s[1..]);
      var t := TrimStart(s);
      assert forall i :: 1 <= i < |s| - |t| ==> s[i] == s[1..][i - 1];
    }
  }

  /** `TrimStart` keeps text whose first character is not white space. */
  lemma TrimStartKeeps(s: string)
    requires s == [] || !IsJsSpace(s[0])
    ensures TrimStart(s) == s
  {
  }

  /** `parseInt` reads the leading digits and ignores whatever follows
      the first non-digit. */
  lemma {:induction false} ParseIntStopsAtNonDigit(ds: string, rest: string)
    requires ds != [] && AllDigits(ds)
    requires rest == [] || !IsDigit(rest[0])
    ensures ParseInt(ds + rest) == Some(DecimalValue(ds))
  {
    var s := ds + rest;
    assert !IsJsSpace(s[0]);
    assert TrimStart(s) == s;
    DigitPrefixOfConcat(ds, rest);
    assert s[..|ds|] == ds;
  }

  lemma {:induction false} DigitPrefixOfConcat(ds: string, rest: string)
    requires AllDigits(ds)
    requires rest == [] || !IsDigit(rest[0])
    ensures DigitPrefixLen(ds + rest) == |ds|
  {
    if ds == [] {
      assert ds + rest == rest;
    } else {
      DigitPrefixOfConcat(ds[1..], rest);
      assert (ds + rest)[1..] == ds[1..] + rest;
    }
  }

  /** Text that is empty or starts with a character other than white
      space, a sign or a digit is `NaN`, whatever follows. */
  lemma ParseIntNaN(s: string)
    requires s == [] || !(IsJsSpace(s[0]) || s[0] == '-' || s[0] == '+' || IsDigit(s[0]))
    ensures ParseInt(s) == None
  {
    assert TrimStart(s) == s;
  }

  // ---------------------------------------------------------------------
  // convertToTimestamp
  // ---------------------------------------------------------------------

  /** `Math.floor(x)`. */
  function Floor(x: real): (n: int)
    ensures n as real <= x < n as real + 1.0
  {
    x.Floor
  }

  /** Truncation toward zero, as used by JavaScript's `%`. */
  function TruncReal(x: real): int
  {
    if x >= 0.0 then x.Floor else -((-x).Floor)
  }

  /** JavaScript's `x % m` on numbers: the remainder takes the sign of `x`. */
  function JsRem(x: real, m: real): real
    requires m != 0.0
  {
    x - m * TruncReal(x / m) as real
  }

  /** `s.padStart(2, '0')`. */
  function PadStart2(s: string): (r: string)
    ensures |r| == if |s| >= 2 then |s| else 2
    ensures |s| >= 2 ==> r == s
    ensures |s| < 2 ==> r[2 - |s|..] == s && forall i :: 0 <= i < 2 - |s| ==> r[i] == '0'
  {
    if |s| >= 2 then s else seq(2 - |s|, _ => '0') + s
  }

  function Minutes(frameId: int, fps: real): int
    requires fps != 0.0
  {
    Floor(frameId as real / fps / 60.0)
  }

  function Seconds(frameId: int, fps: real): int
    requires fps != 0.0
  {
    Floor(JsRem(frameId as real / fps, 60.0))
  }

  /** `convertToTimestamp(frameId)` at the component's `fps`. */
  function ConvertToTimestamp(frameId: int, fps: real): (r: string)
    requires fps != 0.0
    ensures ':' in r
  {
    IntToString(Minutes(frameId, fps)) + ":" + PadStart2(IntToString(Seconds(frameId, fps)))
  }

  /** For a frame at or after the start of a video played forwards, the
      seconds lie in `[0, 60)`, minutes and seconds together are the whole
      seconds elapsed, and the text is the minutes, a colon and exactly two
      zero-padded digits of seconds. */
  lemma TimestampFields(frameId: int, fps: real)
    requires frameId >= 0 && fps > 0.0
    ensures var m, s := Minutes(frameId, fps), Seconds(frameId, fps);
      0 <= s < 60 && m >= 0
      && m * 60 + s == Floor(frameId as real / fps)
      && ConvertToTimestamp(frameId, fps) == NatToString(m) + ":" + [DigitChar(s / 10), DigitChar(s % 10)]
  {
    var t := frameId as real / fps;
    assert t >= 0.0 by {
      assert t * fps == frameId as real;
    }
    var m := Minutes(frameId, fps);
    assert TruncReal(t / 60.0) == m;
    var rem := JsRem(t, 60.0);
    assert rem == t - 60.0 * m as real;
    assert 0.0 <= rem < 60.0;
    var s := Seconds(frameId, fps);
    SecondsFloor(t, m);
    if s < 10 {
      assert NatToString(s) == [DigitChar(s)];
      assert PadStart2(IntToString(s)) == [DigitChar(0), DigitChar(s)];
    } else {
      assert NatToString(s / 10) == [DigitChar(s / 10)];
      assert NatToString(s) == [DigitChar(s / 10), DigitChar(s % 10)];
    }
  }

  lemma SecondsFloor(t: real, m: int)
    requires 0.0 <= t - 60.0 * m as real < 60.0
    ensures Floor(t - 60.0 * m as real) == Floor(t) - 60 * m
    ensures 0 <= Floor(t - 60.0 * m as real) < 60
  {
    var k := Floor(t) - 60 * m;
    assert k as real <= t - 60.0 * m as real < k as real + 1.0;
  }

  /** A negative frame index gives negative fields: frame -25 at 25 fps is
      shown as "-1:-1". */
  lemma NegativeTimestamp()
    ensures ConvertToTimestamp(-25, 25.0) == "-1:-1"
  {
    var t := -25 as real / 25.0;
    assert t == -1.0;
    assert Floor(t / 60.0) == -1;
    assert Minutes(-25, 25.0) == -1;
    assert TruncReal(t / 60.0) == 0;
    assert JsRem(t, 60.0) == -1.0;
    assert Seconds(-25, 25.0) == -1;
    assert NatToString(1) == "1";
    assert IntToString(-1) == "-1";
    assert PadStart2("-1") == "-1";
    assert "-1" + ":" + "-1" == "-1:-1";
  }

  // ---------------------------------------------------------------------
  // handleAddItem / handleRemoveItem / handleChangeItem
  // ---------------------------------------------------------------------

  /** The contents of one array slot: a hole left by an assignment past the
      end, or a value (a number is held as its decimal text). */
  datatype Cell = Hole | Text(text: string)

  /** Where `splice(index + 1, 0, "")` inserts: the start is clamped to the length. */
  function InsertAt(len: nat, index: nat): (p: nat)
    ensures p <= len
  {
    if index + 1 <= len then index + 1 else len
  }

  /** `handleAddItem`: insert an empty entry after `index`. */
  function AddItem(list: seq<Cell>, index: nat): (r: seq<Cell>)
    ensures |r| == |list| + 1
    ensures var p := InsertAt(|list|, index);
      r[..p] == list[..p] && r[p] == Text("") && r[p + 1..] == list[p..]
  {
    var p := InsertAt(|list|, index);
    list[..p] + [Text("")] + list[p..]
  }

  /** `handleRemoveItem`: `splice(index, 1)` removes the entry at `index`,
      and does nothing when `index` is past the end. */
  function RemoveItem(list: seq<Cell>, index: nat): (r: seq<Cell>)
    ensures index < |list| ==> |r| == |list| - 1
    ensures index >= |list| ==> r == list
    ensures forall i :: 0 <= i < |r| ==> r[i] == if i < index then list[i] else list[i + 1]
  {
    if index < |list| then list[..index] + list[index + 1..] else list
  }

  /** `handleChangeItem`: `updated[index] = value`; past the end the array
      grows to `index + 1`, with holes in between. */
  function ChangeItem(list: seq<Cell>, index: nat, value: string): (r: seq<Cell>)
    ensures |r| == if index < |list| then |list| else index + 1
    ensures r[index] == Text(value)
    ensures forall i :: 0 <= i < |r| && i != index ==> r[i] == if i < |list| then list[i] else Hole
  {
    if index < |list| then list[index := Text(value)]
    else list + seq(index - |list|, _ => Hole) + [Text(value)]
  }

  /** Removing the inserted entry gives back the list. */
  lemma RemoveUndoesAdd(list: seq<Cell>, index: nat)
    requires index < |list|
    ensures RemoveItem(AddItem(list, index), index + 1) == list
  {
    var r := RemoveItem(AddItem(list, index), index + 1);
    assert forall i :: 0 <= i < |list| ==> r[i] == list[i];
  }

  /** A second change of the same entry overrides the first. */
  lemma ChangeOverrides(list: seq<Cell>, index: nat, v: string, w: string)
    ensures ChangeItem(ChangeItem(list, index, v), index, w) == ChangeItem(list, index, w)
  {
  }

  /** The number of rows the editor shows. */
  function RowCount(starts: seq<Cell>, ends: seq<Cell>, labels: seq<Cell>): (n: nat)
    ensures n >= |starts| && n >= |ends| && n >= |labels|
    ensures n == |starts| || n == |ends| || n == |labels|
  {
    if |starts| >= |ends| && |starts| >= |labels| then |starts|
    else if |ends| >= |labels| then |ends| else |labels|
  }

  /** Editing a shown row never adds rows, but editing a row past the end
      of one list lengthens only that list. */
  lemma ChangeWithinRows(starts: seq<Cell>, ends: seq<Cell>, labels: seq<Cell>, index: nat, v: string)
    requires index < RowCount(starts, ends, labels)
    ensures RowCount(ChangeItem(starts, index, v), ends, labels) == RowCount(starts, ends, labels)
    ensures index >= |starts| ==> |ChangeItem(starts, index, v)| == index + 1
  {
  }

  // ---------------------------------------------------------------------
  // handleSubmit
  // ---------------------------------------------------------------------

  datatype SubmitCheck = LengthsDiffer | StartAfterEnd | Accepted

  /** `parseInt` of a slot; a hole reads as `undefined`, which is `NaN`. */
  function ParseCell(c: Cell): Option<int>
  {
    match c
    case Hole => None
    case Text(t) => ParseInt(t)
  }

  /** `parseInt(s) > parseInt(e)`: false whenever either side is `NaN`. */
  predicate StartExceedsEnd(s: Cell, e: Cell)
  {
    ParseCell(s).Some? && ParseCell(e).Some? && ParseCell(s).value > ParseCell(e).value
  }

  /** `disabled={...}` of the submit button, negated. */
  predicate SubmitEnabled(starts: seq<Cell>, ends: seq<Cell>, labels: seq<Cell>)
  {
    !(|starts| != |ends| || |labels| != |starts|)
  }

  /** The checks at the top of `handleSubmit`. */
  function HandleSubmit(starts: seq<Cell>, ends: seq<Cell>, labels: seq<Cell>): (r: SubmitCheck)
    ensures r == Accepted ==> |starts| == |ends| == |labels|
  {
    if |starts| != |ends| || |ends| != |labels| then LengthsDiffer
    else if exists i :: 0 <= i < |starts| && StartExceedsEnd(starts[i], ends[i]) then StartAfterEnd
    else Accepted
  }

  /** The lists are submitted exactly when they have one length and every
      pair whose both sides parse has its start at most its end; the button
      is enabled exactly when the length check would pass. */
  lemma HandleSubmitSpec(starts: seq<Cell>, ends: seq<Cell>, labels: seq<Cell>)
    ensures HandleSubmit(starts, ends, labels) == Accepted <==>
      |starts| == |ends| == |labels|
      && forall i :: 0 <= i < |starts| && ParseCell(starts[i]).Some? && ParseCell(ends[i]).Some? ==>
           ParseCell(starts[i]).value <= ParseCell(ends[i]).value
    ensures HandleSubmit(starts, ends, labels) != LengthsDiffer <==> SubmitEnabled(starts, ends, labels)
  {
  }

  /** The editor shows a row for the longest list. Entering a start in a
      shown row past the end of the starts and ends lists (a row only the
      labels list reaches) lengthens the starts list alone, so the lengths
      differ and submission is refused. */
  lemma EditPastEndRefused(starts: seq<Cell>, ends: seq<Cell>, labels: seq<Cell>, index: nat, v: string)
    requires |starts| == |ends| && |starts| <= index < RowCount(starts, ends, labels)
    ensures HandleSubmit(ChangeItem(starts, index, v), ends, labels) == LengthsDiffer
    ensures !SubmitEnabled(ChangeItem(starts, index, v), ends, labels)
  {
  }

  /** Holes and text without digits never block submission. */
  lemma UnparsedPairsPass()
    ensures HandleSubmit([Hole, Text("9")], [Text("1"), Text("")], [Text("a"), Text("b")]) == Accepted
  {
    assert ParseCell(Text("")) == None;
  }
}
