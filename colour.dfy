/**
 * The `background_color` query parameter of `remove_background`: text of
 * the form "R,G,B" turned into the colour the removal library paints the
 * background with.
 */
module Colour {
  import opened Wrappers
  import opened PyStr
  import opened PyInt

  /** The `bg_color` tuple handed to the removal library. */
  datatype Rgb = Rgb(r: int, g: int, b: int)

  /**
   * Why a colour text was refused. Both are a `ValueError`: either `int()`
   * refused one of the pieces, or the values were not exactly three, each
   * in [0, 255].
   */
  datatype ColourError = NotAnInteger | NotThreeChannels

  predicate InChannelRange(v: int)
  {
    0 <= v <= 255
  }

  /** `all(0 <= v <= 255 for v in values)` */
  predicate AllInRange(values: seq<int>)
  {
    forall i :: 0 <= i < |values| ==> InChannelRange(values[i])
  }

  /** `int(x.strip())` for one comma-separated piece `x` of the text. */
  function PieceValue(piece: string): Option<int>
  {
    ParseInt(Strip(piece))
  }

  /** The generator `int(x.strip()) for x in pieces`, item by item. */
  function PieceValues(pieces: seq<string>): (items: seq<Option<int>>)
    ensures |items| == |pieces|
    ensures forall i :: 0 <= i < |pieces| ==> items[i] == PieceValue(pieces[i])
  {
    seq(|pieces|, i requires 0 <= i < |pieces| => PieceValue(pieces[i]))
  }

  /** `int()` accepts every piece once it is trimmed. */
  predicate AllIntegers(pieces: seq<string>)
  {
    forall i :: 0 <= i < |pieces| ==> PieceValue(pieces[i]).Some?
  }

  /** An item of the generator that denotes a channel value. */
  predicate IsChannel(item: Option<int>)
  {
    item.Some? && InChannelRange(item.value)
  }

  /**
   * What the parameter is meant to hold: exactly three comma-separated
   * pieces, each an integer in [0, 255] once white space is trimmed.
   */
  predicate IsColourTriple(text: string)
  {
    var items := PieceValues(Split(text, ','));
    |items| == 3 && IsChannel(items[0]) && IsChannel(items[1]) && IsChannel(items[2])
  }

  /** The colour a well-formed text denotes, channel by channel in order. */
  function TripleOf(text: string): Rgb
    requires IsColourTriple(text)
  {
    var items := PieceValues(Split(text, ','));
    Rgb(items[0].value, items[1].value, items[2].value)
  }

  /**
   * `tuple(...)` over a generator whose items may raise: the values in
   * order, or `None` as soon as one item raised.
   */
  function Collect(items: seq<Option<int>>): (r: Option<seq<int>>)
    ensures r.Some? <==> forall i :: 0 <= i < |items| ==> items[i].Some?
    ensures r.Some? ==> |r.value| == |items|
    ensures r.Some? ==> forall i :: 0 <= i < |items| ==> r.value[i] == items[i].value
  {
    if |items| == 0 then Some([])
    else
      match items[0]
      case None => None
      case Some(v) =>
        match Collect(items[1..])
        case None => None
        case Some(vs) => Some([v] + vs)
  }

  /**
   * The handler's colour parsing: an absent or empty text means no colour;
   * otherwise the text is accepted exactly when it is a triple of channel
   * values, and the colour is those three values in order. An item that is
   * not an integer is reported as such, whatever the number of pieces.
   */
  function ParseBackgroundColor(text: Option<string>): (r: Result<Option<Rgb>, ColourError>)
    ensures text.None? || text.value == "" ==> r == Ok(None)
    ensures text.Some? && text.value != "" ==>
      (r.Ok? <==> IsColourTriple(text.value)) &&
      (r.Ok? ==> r.value == Some(TripleOf(text.value)))
    ensures r == Err(NotAnInteger) <==>
      text.Some? && text.value != "" && !AllIntegers(Split(text.value, ','))
  {
    if text.None? || text.value == "" then Ok(None)
    else
      var items := PieceValues(Split(text.value, ','));
      CollectChecksTriple(items);
      match Collect(items)
      case None => Err(NotAnInteger)
      case Some(values) =>
        if |values| != 3 || !AllInRange(values) then Err(NotThreeChannels)
        else Ok(Some(Rgb(values[0], values[1], values[2])))
  }

  /**
   * The check the handler makes on the collected values (three of them,
   * all in range) is the item-by-item reading of a colour triple.
   */
  lemma CollectChecksTriple(items: seq<Option<int>>)
    ensures Collect(items).Some? && |Collect(items).value| == 3 && AllInRange(Collect(items).value)
      <==> |items| == 3 && IsChannel(items[0]) && IsChannel(items[1]) && IsChannel(items[2])
    ensures |items| == 3 && IsChannel(items[0]) && IsChannel(items[1]) && IsChannel(items[2]) ==>
      Collect(items).value == [items[0].value, items[1].value, items[2].value]
  {
    var r := Collect(items);
    if |items| == 3 && IsChannel(items[0]) && IsChannel(items[1]) && IsChannel(items[2]) {
      assert forall i :: 0 <= i < |items| ==> items[i].Some?;
      assert r.value == [items[0].value, items[1].value, items[2].value];
    }
  }

  /** The "R,G,B" text a client sends for a colour. */
  function FormatColour(c: Rgb): string
    requires InChannelRange(c.r) && InChannelRange(c.g) && InChannelRange(c.b)
  {
    Decimal(c.r) + "," + Decimal(c.g) + "," + Decimal(c.b)
  }

  lemma NumeralLacksComma(n: nat)
    ensures ',' !in Decimal(n)
  {
    assert forall i :: 0 <= i < |Decimal(n)| ==> Decimal(n)[i] != ',';
  }

  lemma DecimalIsChannelPiece(n: nat)
    ensures PieceValue(Decimal(n)) == Some(n)
  {
    StripTrimmed(Decimal(n));
    ParseIntDecimal(n);
  }

  /** Three comma-free pieces joined by commas split back into themselves. */
  lemma SplitThree(a: string, b: string, c: string)
    requires ',' !in a && ',' !in b && ',' !in c
    ensures Split(a + "," + b + "," + c, ',') == [a, b, c]
  {
    var tail := b + [','] + c;
    SplitFirst(b, ',', c);
    SplitAbsent(c, ',');
    assert Split(tail, ',') == [b, c];
    assert a + "," + b + "," + c == a + [','] + tail;
    SplitFirst(a, ',', tail);
  }

  lemma ItemsOfThree(a: string, b: string, c: string)
    ensures PieceValues([a, b, c]) == [PieceValue(a), PieceValue(b), PieceValue(c)]
  {
  }

  /** The generator over the pieces of three numerals joined by commas yields those numbers. */
  lemma NumeralItems(x: nat, y: nat, z: nat)
    ensures PieceValues(Split(Decimal(x) + "," + Decimal(y) + "," + Decimal(z), ',')) == [Some(x), Some(y), Some(z)]
  {
    var a, b, c := Decimal(x), Decimal(y), Decimal(z);
    NumeralLacksComma(x);
    NumeralLacksComma(y);
    NumeralLacksComma(z);
    SplitThree(a, b, c);
    ItemsOfThree(a, b, c);
    DecimalIsChannelPiece(x);
    DecimalIsChannelPiece(y);
    DecimalIsChannelPiece(z);
  }

  /** The generator over the pieces of "R,G,B" yields the three channels. */
  lemma FormatColourItems(c: Rgb)
    requires InChannelRange(c.r) && InChannelRange(c.g) && InChannelRange(c.b)
    ensures PieceValues(Split(FormatColour(c), ',')) == [Some(c.r), Some(c.g), Some(c.b)]
  {
    NumeralItems(c.r, c.g, c.b);
  }

  /** Every colour in range, written as "R,G,B", parses back to itself. */
  lemma ColourRoundTrip(c: Rgb)
    requires InChannelRange(c.r) && InChannelRange(c.g) && InChannelRange(c.b)
    ensures ParseBackgroundColor(Some(FormatColour(c))) == Ok(Some(c))
  {
    FormatColourItems(c);
    assert |FormatColour(c)| >= 5;
    AcceptsItems(FormatColour(c), c);
  }

  /**
   * Three integers of which one is above 255 are refused as a colour, and
   * for the range, not as something that is not an integer.
   */
  lemma NumeralsOutOfRange(x: nat, y: nat, z: nat)
    requires x > 255 || y > 255 || z > 255
    ensures ParseBackgroundColor(Some(Decimal(x) + "," + Decimal(y) + "," + Decimal(z))) == Err(NotThreeChannels)
  {
    var text := Decimal(x) + "," + Decimal(y) + "," + Decimal(z);
    NumeralItems(x, y, z);
    assert |text| >= 5;
    RefusesOutOfRange(text, x, y, z);
  }

  lemma RefusesOutOfRange(text: string, x: int, y: int, z: int)
    requires text != "" && PieceValues(Split(text, ',')) == [Some(x), Some(y), Some(z)]
    requires !InChannelRange(x) || !InChannelRange(y) || !InChannelRange(z)
    ensures ParseBackgroundColor(Some(text)) == Err(NotThreeChannels)
  {
    var items := PieceValues(Split(text, ','));
    assert !IsColourTriple(text);
    assert AllIntegers(Split(text, ',')) by {
      assert forall i :: 0 <= i < |items| ==> items[i].Some?;
    }
    RefusesIntegers(text);
  }

  /** A non-empty text of integers that is no colour triple is refused for its channels. */
  lemma RefusesIntegers(text: string)
    requires text != "" && AllIntegers(Split(text, ',')) && !IsColourTriple(text)
    ensures ParseBackgroundColor(Some(text)) == Err(NotThreeChannels)
  {
  }

  /** White space that may stand around a channel: no comma in it. */
  predicate IsPad(pad: string)
  {
    AllSpace(pad) && ',' !in pad
  }

  /** A channel numeral with white space `pre` before it and `post` after it. */
  function Padded(pre: string, n: nat, post: string): string
  {
    pre + Decimal(n) + post
  }

  /** White space around a numeral is trimmed before `int()` sees it. */
  lemma PaddedNumeral(pre: string, n: nat, post: string)
    requires IsPad(pre) && IsPad(post)
    ensures ',' !in Padded(pre, n, post)
    ensures PieceValue(Padded(pre, n, post)) == Some(n)
  {
    var d := Decimal(n);
    assert !IsSpace(d[0]) && !IsSpace(d[|d| - 1]);
    StripPadded(pre, d, post);
    ParseIntDecimal(n);
    NumeralLacksComma(n);
  }

  /** The generator over three padded numerals joined by commas yields those numbers. */
  lemma PaddedItems(pads: seq<string>, x: nat, y: nat, z: nat)
    requires |pads| == 6 && forall k :: 0 <= k < 6 ==> IsPad(pads[k])
    ensures var text := Padded(pads[0], x, pads[1]) + "," + Padded(pads[2], y, pads[3]) + "," + Padded(pads[4], z, pads[5]);
      PieceValues(Split(text, ',')) == [Some(x), Some(y), Some(z)]
  {
    var a, b, c := Padded(pads[0], x, pads[1]), Padded(pads[2], y, pads[3]), Padded(pads[4], z, pads[5]);
    PaddedNumeral(pads[0], x, pads[1]);
    PaddedNumeral(pads[2], y, pads[3]);
    PaddedNumeral(pads[4], z, pads[5]);
    SplitThree(a, b, c);
    ItemsOfThree(a, b, c);
  }

  /**
   * A colour written with any white space around each channel, as in
   * "255, 0, 0" or " 255 ,0 , 0", is accepted as that colour. `pads` holds
   * the white space before and after the red, green and blue numerals.
   */
  lemma PaddedColourAccepted(c: Rgb, pads: seq<string>)
    requires InChannelRange(c.r) && InChannelRange(c.g) && InChannelRange(c.b)
    requires |pads| == 6 && forall k :: 0 <= k < 6 ==> IsPad(pads[k])
    ensures var text := Padded(pads[0], c.r, pads[1]) + "," + Padded(pads[2], c.g, pads[3]) + "," + Padded(pads[4], c.b, pads[5]);
      ParseBackgroundColor(Some(text)) == Ok(Some(c))
  {
    var text := Padded(pads[0], c.r, pads[1]) + "," + Padded(pads[2], c.g, pads[3]) + "," + Padded(pads[4], c.b, pads[5]);
    PaddedItems(pads, c.r, c.g, c.b);
    assert |text| >= 5;
    AcceptsItems(text, c);
  }

  /** A piece of white space only, as in "1, ,3", is no integer once stripped. */
  lemma BlankPieceIsNoInteger(pad: string)
    requires AllSpace(pad)
    ensures PieceValue(pad) == None
  {
    StripAllSpace(pad);
  }

  /**
   * A blank channel between two others, as in "1, ,3", makes the whole
   * colour a not-an-integer error.
   */
  lemma BlankChannelRejected(a: string, pad: string, c: string)
    requires ',' !in a && ',' !in c && IsPad(pad)
    ensures ParseBackgroundColor(Some(a + "," + pad + "," + c)) == Err(NotAnInteger)
  {
    var text := a + "," + pad + "," + c;
    SplitThree(a, pad, c);
    BlankPieceIsNoInteger(pad);
    assert Split(text, ',')[1] == pad;
    assert |text| >= 2;
    RefusesNonInteger(text);
  }

  lemma RefusesNonInteger(text: string)
    requires text != "" && !AllIntegers(Split(text, ','))
    ensures ParseBackgroundColor(Some(text)) == Err(NotAnInteger)
  {
  }

  /** A non-empty text whose pieces read as the three channels of `c` is accepted as `c`. */
  lemma AcceptsItems(text: string, c: Rgb)
    requires InChannelRange(c.r) && InChannelRange(c.g) && InChannelRange(c.b)
    requires text != "" && PieceValues(Split(text, ',')) == [Some(c.r), Some(c.g), Some(c.b)]
    ensures ParseBackgroundColor(Some(text)) == Ok(Some(c))
  {
    assert IsColourTriple(text) && TripleOf(text) == c;
  }
}
