/** The display helpers of client/src/lib/utils.ts: names, truncation and count labels. */
module Utils {
  import opened Wrappers
  import Decimal

  /**
   * `getUserFullName`: both names joined by a space, otherwise whichever one is
   * set, otherwise the fixed placeholder. Null, undefined and "" all count as unset.
   */
  function GetUserFullName(firstName: Option<string>, lastName: Option<string>): (r: string)
    ensures r != ""
    ensures Truthy(firstName) ==> |firstName.value| <= |r| && r[..|firstName.value|] == firstName.value
    ensures Truthy(lastName) ==> |lastName.value| <= |r| && r[|r| - |lastName.value|..] == lastName.value
    ensures Truthy(firstName) && Truthy(lastName) ==>
              |r| == |firstName.value| + 1 + |lastName.value| && r[|firstName.value|] == ' '
    ensures Truthy(firstName) != Truthy(lastName) ==>
              r == if Truthy(firstName) then firstName.value else lastName.value
    ensures !Truthy(firstName) && !Truthy(lastName) ==> r == "Anonymous User"
  {
    if Truthy(firstName) && Truthy(lastName) then firstName.value + " " + lastName.value
    else if Truthy(firstName) then firstName.value
    else if Truthy(lastName) then lastName.value
    else "Anonymous User"
  }

  /** The end index `s.slice(0, end)` uses: a negative end counts back from the length. */
  function SliceEnd(len: nat, end: int): (k: nat)
    ensures k <= len
  {
    if end < 0 then (if len + end < 0 then 0 else len + end)
    else if end > len then len
    else end
  }

  /**
   * `truncateText`: the text itself when it fits in `maxLength` characters, else
   * `text.slice(0, maxLength)` followed by an ellipsis.
   */
  function TruncateText(text: string, maxLength: int): (r: string)
    ensures |text| <= maxLength ==> r == text
    ensures 0 <= maxLength < |text| ==> r == text[..maxLength] + "..." && |r| == maxLength + 3
    ensures maxLength < 0 ==> r == text[..SliceEnd(|text|, maxLength)] + "..."
  {
    if |text| <= maxLength then text
    else text[..SliceEnd(|text|, maxLength)] + "..."
  }

  /** For a non-negative limit, truncating a truncated text changes nothing. */
  lemma TruncateTextIdempotent(text: string, maxLength: int)
    requires 0 <= maxLength
    ensures TruncateText(TruncateText(text, maxLength), maxLength) == TruncateText(text, maxLength)
  {
    if maxLength < |text| {
      var r := TruncateText(text, maxLength);
      assert r[..maxLength] == text[..maxLength];
    }
  }

  /**
   * What `formatCount` renders. `Plain` is `count.toString()`; `Scaled` stands for
   * `(count / divisor).toFixed(fractionDigits) + suffix`, whose floating-point
   * digits are not modelled.
   */
  datatype CountLabel =
    | Plain(text: string)
    | Scaled(count: int, divisor: nat, fractionDigits: nat, suffix: string)

  function FormatCount(count: int): (r: CountLabel)
    ensures r.Plain? <==> count < 1000
    ensures r.Plain? ==> r.text == Decimal.IntToString(count)
    ensures r.Scaled? ==> r.count == count && r.divisor <= count
  {
    if count == 0 then Plain("0")
    else if count < 1000 then Plain(Decimal.IntToString(count))
    else if count < 1000000 then Scaled(count, 1000, if count % 1000 < 100 then 0 else 1, "k")
    else Scaled(count, 1000000, if count % 1000000 < 100000 then 0 else 1, "m")
  }

  /**
   * Counts below one thousand are shown as their own digits, at most three of
   * them, and read back as the same count.
   */
  lemma FormatCountSmall(count: int)
    requires 0 <= count < 1000
    ensures FormatCount(count).Plain?
    ensures FormatCount(count).text == Decimal.NatToString(count)
    ensures Decimal.ParseNat(FormatCount(count).text) == Some(count)
    ensures 1 <= |FormatCount(count).text| <= 3
    ensures count == 0 ==> FormatCount(count).text == "0"
  {
    Decimal.ParseNatToString(count);
    Decimal.NatToStringLength(count);
  }

  /**
   * From one thousand the label is scaled: thousands with a "k" below one
   * million, millions with an "m" above, one decimal place only when the
   * remainder reaches a tenth of the unit.
   */
  lemma FormatCountScaled(count: int)
    requires 1000 <= count
    ensures FormatCount(count).Scaled?
    ensures count < 1000000 ==> FormatCount(count).suffix == "k" && FormatCount(count).divisor == 1000
    ensures 1000000 <= count ==> FormatCount(count).suffix == "m" && FormatCount(count).divisor == 1000000
    ensures FormatCount(count).count == count
    ensures FormatCount(count).fractionDigits == 0 <==>
              count % FormatCount(count).divisor < FormatCount(count).divisor / 10
  {
  }
}
