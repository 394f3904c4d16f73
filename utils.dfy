/** The helpers of src/duckai/utils.py: text clean-up for prompts and
    replies, and the classification of one line of a server-sent event
    stream. */
module Utils {
  import opened Wrappers
  import opened JsonValue
  import opened Whitespace

  /** `clean_text`: every run of whitespace becomes one space, then both
      ends are stripped. */
  function CleanText(text: string): (r: string)
    ensures NoEdgeWhitespace(r)
    ensures SingleSpaced(r)
    ensures NonWhitespace(r) == NonWhitespace(text)
  {
    var collapsed := CollapseWhitespace(text);
    StripKeepsSingleSpaced(collapsed);
    CollapseKeepsNonWhitespace(text);
    StripKeepsNonWhitespace(collapsed);
    Strip(collapsed)
  }

  /** Cleaning text that is already clean changes nothing. */
  lemma CleanTextOfClean(text: string)
    requires SingleSpaced(text) && NoEdgeWhitespace(text)
    ensures CleanText(text) == text
  {
    CollapseOfSingleSpaced(text);
    StripOfEdgeless(text);
  }

  /** `clean_text` is idempotent. */
  lemma CleanTextIdempotent(text: string)
    ensures CleanText(CleanText(text)) == CleanText(text)
  {
    CleanTextOfClean(CleanText(text));
  }

  /** `clean_text` is `" ".join(text.split())`: the words of the text,
      in order, separated by single spaces. */
  lemma {:induction false} CleanTextIsJoinOfWords(text: string)
    ensures CleanText(text) == JoinWords(Words(text))
    decreases |text|
  {
    var i := SkipWhitespace(text, 0);
    if i == |text| {
      CleanTextOfBlank(text);
    } else {
      var j := SkipWord(text, i);
      var w := text[i..j];
      var rest := Words(text[j..]);
      assert Words(text) == [w] + rest;
      CleanTextStep(text);
      CleanTextIsJoinOfWords(text[j..]);
      assert ([w] + rest)[1..] == rest;
    }
  }

  /** Text that is all whitespace cleans to the empty string. */
  lemma CleanTextOfBlank(text: string)
    requires SkipWhitespace(text, 0) == |text|
    ensures CleanText(text) == []
  {
    CollapseLeading(text);
    assert text[|text|..] == [];
    var c := CollapseWhitespace(text);
    assert TrimsAt([], c, 0);
    StripUnique(c, []);
  }

  /** Cleaning text that has a word after its leading whitespace gives
      that word, then a space and the cleaned remainder unless the
      remainder cleans to nothing. */
  lemma CleanTextStep(text: string)
    requires SkipWhitespace(text, 0) < |text|
    ensures var i := SkipWhitespace(text, 0);
            var j := SkipWord(text, i);
            var tail := CleanText(text[j..]);
            CleanText(text) == if tail == [] then text[i..j] else text[i..j] + " " + tail
  {
    StripCollapseStep(text);
  }

  /** `format_response`: the reply with whitespace stripped from both
      ends, and nothing changed in between. */
  function FormatResponse(text: string): (r: string)
    ensures IsTrimmingOf(r, text)
    ensures NoEdgeWhitespace(r)
  {
    Strip(text)
  }

  /** Any cut of whitespace from the ends of `text` that leaves none at
      either end is what `format_response` returns. */
  lemma FormatResponseIsTheTrimming(text: string, r: string)
    requires IsTrimmingOf(r, text) && NoEdgeWhitespace(r)
    ensures FormatResponse(text) == r
  {
    StripUnique(text, r);
  }

  /** `format_response` is idempotent. */
  lemma FormatResponseIdempotent(text: string)
    ensures FormatResponse(FormatResponse(text)) == FormatResponse(text)
  {
    StripIdempotent(text);
  }

  /** The field name and separator that mark a data line. */
  const DataPrefix: string := "data: "

  /** The payload that ends the stream. */
  const DoneSentinel: string := "[DONE]"

  /** `line.startswith("data: ")`: an exact, case-sensitive match of the
      six characters, with no whitespace allowed before them. */
  predicate IsDataLine(line: string) {
    |DataPrefix| <= |line| && line[..|DataPrefix|] == DataPrefix
  }

  /** `parse_sse_line`: the decoded payload of a data line; `None` for
      any other line, for the end sentinel, and for a payload that does
      not parse. `parse` stands for `json.loads`, with `None` where it
      raises `JSONDecodeError`. */
  function ParseSseLine(line: string, parse: string -> Option<Json>): (r: Option<Json>)
    ensures !IsDataLine(line) ==> r == None
    ensures IsDataLine(line) && line[|DataPrefix|..] == DoneSentinel ==> r == None
    ensures IsDataLine(line) && line[|DataPrefix|..] != DoneSentinel ==> r == parse(line[|DataPrefix|..])
  {
    if IsDataLine(line) then
      var data := line[|DataPrefix|..];
      if data == DoneSentinel then None else parse(data)
    else
      None
  }

  /** A data line hands its payload, and only its payload, to the JSON
      parser; the end sentinel is not parsed. */
  lemma ParseSseLineOfDataLine(payload: string, parse: string -> Option<Json>)
    ensures ParseSseLine(DataPrefix + payload, parse)
         == if payload == DoneSentinel then None else parse(payload)
  {
    var line := DataPrefix + payload;
    assert line[..|DataPrefix|] == DataPrefix;
    assert line[|DataPrefix|..] == payload;
  }

  /** A line yields an event exactly when it is a data line whose payload
      is not the sentinel and parses; the event is that parse. */
  lemma ParseSseLineSomeIff(line: string, parse: string -> Option<Json>, event: Json)
    ensures ParseSseLine(line, parse) == Some(event)
        <==> IsDataLine(line)
             && line[|DataPrefix|..] != DoneSentinel
             && parse(line[|DataPrefix|..]) == Some(event)
  {
  }

  /** Every event a server writes as `data: <json>` reaches the reader
      unchanged, provided the parser reads back what the writer wrote and
      rejects the sentinel (as `json.loads` does: `[DONE]` is not JSON). */
  lemma ParseSseLineRoundTrip(event: Json, show: Json -> string, parse: string -> Option<Json>)
    requires parse(show(event)) == Some(event)
    requires parse(DoneSentinel) == None
    ensures ParseSseLine(DataPrefix + show(event), parse) == Some(event)
  {
    ParseSseLineOfDataLine(show(event), parse);
  }

  /** A line that begins with whitespace is not a data line: the line is
      not stripped before the prefix test. */
  lemma ParseSseLineLeadingWhitespace(line: string, parse: string -> Option<Json>)
    requires line != [] && IsWhitespace(line[0])
    ensures ParseSseLine(line, parse) == None
  {
  }

  /** `data:` not followed by a space is not a data line. */
  lemma ParseSseLineNoSpace(line: string, parse: string -> Option<Json>)
    requires 5 <= |line| && line[..5] == "data:"
    requires |line| == 5 || line[5] != ' '
    ensures ParseSseLine(line, parse) == None
  {
  }

  /** A line whose first character is an upper-case `D`, as in
      `Data: `, is not a data line. */
  lemma ParseSseLineCaseSensitive(line: string, parse: string -> Option<Json>)
    requires line != [] && line[0] == 'D'
    ensures ParseSseLine(line, parse) == None
  {
  }
}
