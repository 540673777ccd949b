/** The location of a data block, as the writer prints it and the reader parses it. */
module Locations {
  import opened Base
  import opened Text

  datatype BlockKind = Attachment | Embedded | InlineData | External | Unknown

  datatype BlockLocation = BlockLocation(kind: BlockKind, offset: U64, size: U64)

  /** What the writer prints for a block in the file. */
  function LocationText(offset: U64, size: U64): string {
    "attachment:" + ToDecimal(offset) + ":" + ToDecimal(size)
  }

  predicate StartsWith(text: string, prefix: string) {
    |prefix| <= |text| && text[..|prefix|] == prefix
  }

  /** `parse_location` of the reader. */
  function ParseLocation(text: string): BlockLocation {
    if StartsWith(text, "attachment:") then
      var tail := text[|"attachment:"|..];
      var separator := Find(tail, ':', 0);
      if separator == |tail| || ParseUnsigned(tail[..separator]).None? || ParseUnsigned(tail[separator + 1..]).None?
      then BlockLocation(Unknown, 0, 0)
      else BlockLocation(Attachment, ParseUnsigned(tail[..separator]).value, ParseUnsigned(tail[separator + 1..]).value)
    else if text == "embedded" then BlockLocation(Embedded, 0, 0)
    else if StartsWith(text, "inline:") then BlockLocation(InlineData, 0, 0)
    else if StartsWith(text, "url(") || StartsWith(text, "path(") then BlockLocation(External, 0, 0)
    else BlockLocation(Unknown, 0, 0)
  }

  /** The reader recovers the offset and size that the writer printed. */
  lemma LocationRoundTrip(offset: U64, size: U64)
    ensures ParseLocation(LocationText(offset, size)) == BlockLocation(Attachment, offset, size)
  {
    var prefix, left, right := "attachment:", ToDecimal(offset), ToDecimal(size);
    DecimalIsFree(offset, ':');
    hide ToDecimal, Find, Free;
    var text := prefix + left + ":" + right;
    var tail := left + (":" + right);
    assert text == prefix + tail;
    assert text[..|prefix|] == prefix && text[|prefix|..] == tail;
    FindIsFirst("", left, ":" + right, ':');
    assert "" + left == left;
    assert tail[..|left|] == left && tail[|left| + 1..] == right;
  }
}
