/**
 * The visual-novel lookup against the VNDB API: the user's text is
 * normalised, classified as a VNDB id ("v17") or a free-text search, and
 * spliced into a fixed JSON request body sent to the "/vn" endpoint.
 */
module VndbQuery {
  import opened Wrappers
  import Text
  import AppErrors

  /** The fields every lookup asks VNDB for (note the space before "aliases"). */
  const Fields: string :=
    "id,title,alttitle,titles.lang,titles.title,titles.latin,titles.official,titles.main,"
    + " aliases,olang,devstatus,released,languages,platforms,image.url,image.sexual,"
    + "image.violence,length_minutes,description,average,rating,votecount,tags.rating,"
    + "tags.spoiler,tags.name,developers.name,staff.name,staff.role,va.character.name"

  /** The endpoint of the lookup. */
  const VnPath: string := "/vn"

  /** Which VNDB filter the request uses. */
  datatype Filter = IdFilter | SearchFilter

  function FilterName(f: Filter): string {
    match f
    case IdFilter => "id"
    case SearchFilter => "search"
  }

  predicate NoUpper(s: string) {
    forall i :: 0 <= i < |s| ==> !('A' <= s[i] <= 'Z')
  }

  /** The input after `to_lowercase` and then `trim`. */
  function Processed(input: string): (v: string)
    ensures NoUpper(v)
    ensures v == [] || (!Text.IsWhitespace(v[0]) && !Text.IsWhitespace(v[|v| - 1]))
  {
    var lower := Text.AsciiLower(input);
    LowerHasNoUpper(input);
    TrimKeepsNoUpper(lower);
    Text.Trim(lower)
  }

  lemma LowerHasNoUpper(s: string)
    ensures NoUpper(Text.AsciiLower(s))
  {
    var r := Text.AsciiLower(s);
    forall i | 0 <= i < |r| ensures !('A' <= r[i] <= 'Z') {
      assert r[i] == Text.LowerChar(s[i]);
    }
  }

  lemma TrimKeepsNoUpper(s: string)
    requires NoUpper(s)
    ensures NoUpper(Text.Trim(s))
  {
    var r := Text.Trim(s);
    var k := Text.TrimOffset(s);
    assert r == s[k..k + |r|];
    NoUpperSlice(s, k, k + |r|);
  }

  lemma NoUpperSlice(s: string, a: int, b: int)
    requires NoUpper(s) && 0 <= a <= b <= |s|
    ensures NoUpper(s[a..b])
  {
    forall i | 0 <= i < b - a ensures !('A' <= s[a..b][i] <= 'Z') {
      assert s[a..b][i] == s[a + i];
    }
  }

  /** `starts_with('v')` and every character after the first is numeric. */
  predicate IsVnId(v: string) {
    Text.StartsWith(v, "v") && forall i :: 1 <= i < |v| ==> Text.IsDigit(v[i])
  }

  function Classify(v: string): Filter {
    if IsVnId(v) then IdFilter else SearchFilter
  }

  /** The text of the request body up to where the value is spliced in. */
  function BodyPrefix(f: Filter): string {
    "{\n    \t\t\"filters\": [\"" + FilterName(f) + "\", \"=\",\""
  }

  /** The text of the request body after the value; the same for both filters. */
  function BodySuffix(fields: string): string {
    "\"],\n    \t\t\"fields\": \"" + fields + "\"\n\t\t}"
  }

  /** The JSON body for an already processed value and a fields list. */
  function Body(f: Filter, v: string, fields: string): string {
    BodyPrefix(f) + v + BodySuffix(fields)
  }

  /** The JSON body `get_vn` sends for the user's input. */
  function QueryJson(input: string): string {
    var v := Processed(input);
    Body(Classify(v), v, Fields)
  }

  /** The value a body carries, read back from between the fixed prefix and suffix. */
  function EmbeddedValue(f: Filter, body: string, fields: string): Option<string> {
    var pre := BodyPrefix(f);
    var suf := BodySuffix(fields);
    if |pre| + |suf| <= |body| && body[..|pre|] == pre && body[|body| - |suf|..] == suf
    then Some(body[|pre|..|body| - |suf|])
    else None
  }

  /** The message of the error a response that fails to parse gives. */
  function ParseErrorMessage(e: string): string {
    "Error while parsing response: '" + e + "'"
  }

  /**
   * `get_vn`: the cached request is an oracle from (path, body) to the
   * response text or an error; `parse` stands for JSON deserialisation.
   */
  function GetVn<V>(input: string,
                    request: (string, string) -> Result<string, AppErrors.AppError>,
                    parse: string -> Result<V, string>): (r: Result<V, AppErrors.AppError>)
    ensures request(VnPath, QueryJson(input)).Err? ==> r == Err(request(VnPath, QueryJson(input)).error)
    ensures request(VnPath, QueryJson(input)).Ok? ==>
      var text := request(VnPath, QueryJson(input)).value;
      (parse(text).Ok? ==> r == Ok(parse(text).value))
      && (parse(text).Err? ==>
            r == Err(AppErrors.AppError(ParseErrorMessage(parse(text).error),
                                        AppErrors.WebRequest, AppErrors.Unknown)))
  {
    match request(VnPath, QueryJson(input))
    case Err(e) => Err(e)
    case Ok(text) =>
      match parse(text)
      case Err(e) => Err(AppErrors.AppError(ParseErrorMessage(e), AppErrors.WebRequest, AppErrors.Unknown))
      case Ok(vn) => Ok(vn)
  }

  // ----------------------------------------------------------------- lemmas

  /** The id filter is chosen exactly for "v" followed by digits only. */
  lemma IdFilterIff(v: string)
    ensures Classify(v) == IdFilter <==> (|v| >= 1 && v[0] == 'v' && Text.AllDigits(v[1..]))
  {
    if |v| >= 1 && v[0] == 'v' && Text.AllDigits(v[1..]) {
      assert v[..1] == "v";
      forall i | 1 <= i < |v| ensures Text.IsDigit(v[i]) {
        assert v[i] == v[1..][i - 1];
      }
    }
    if Classify(v) == IdFilter {
      assert v[..1][0] == v[0];
      forall i | 0 <= i < |v| - 1 ensures Text.IsDigit(v[1..][i]) {
        assert v[1..][i] == v[i + 1];
      }
    }
  }

  /** "v" alone is an id; a word starting with 'v' or a bare number is a search. */
  lemma ClassifyExamples()
    ensures Classify("v") == IdFilter
    ensures Classify("v17") == IdFilter
    ensures Classify("vocaloid") == SearchFilter
    ensures Classify("17") == SearchFilter
    ensures Classify("") == SearchFilter
  {
    assert "v"[..1] == "v";
    assert "v17"[..1] == "v";
    assert !Text.IsDigit("vocaloid"[1]);
    assert "17"[..1][0] == '1';
  }

  /** Case and surrounding blanks do not matter: " V17 " becomes "v17". */
  lemma ProcessedExample()
    ensures Processed(" V17 ") == "v17"
  {
    LowerExample();
    TrimStartExample();
    TrimEndExample();
    assert Text.Trim(" v17 ") == Text.TrimEnd(Text.TrimStart(" v17 "));
  }

  lemma LowerExample()
    ensures Text.AsciiLower(" V17 ") == " v17 "
  {
    assert Text.LowerChar('V') == 'v';
  }

  lemma TrimStartExample()
    ensures Text.TrimStart(" v17 ") == "v17 "
  {
    assert " v17 " == [' '] + "v17 ";
    Text.TrimStartAfterBlank(' ', "v17 ");
    Text.TrimStartStep("v17 ");
  }

  lemma TrimEndExample()
    ensures Text.TrimEnd("v17 ") == "v17"
  {
    assert "v17 " == "v17" + [' '];
    Text.TrimEndBeforeBlank("v17", ' ');
    Text.TrimEndStep("v17");
  }

  lemma TrimOfTrimmed(v: string)
    requires v == [] || (!Text.IsWhitespace(v[0]) && !Text.IsWhitespace(v[|v| - 1]))
    ensures Text.Trim(v) == v
  {
    assert Text.TrimStart(v) == v;
    assert Text.TrimEnd(v) == v;
  }

  lemma LowerOfNoUpper(v: string)
    requires NoUpper(v)
    ensures Text.AsciiLower(v) == v
  {
    var r := Text.AsciiLower(v);
    forall i | 0 <= i < |v| ensures r[i] == v[i] {
      assert r[i] == Text.LowerChar(v[i]);
    }
  }

  /** Processing a processed value changes nothing, so it is classified the same. */
  lemma ProcessedIsIdempotent(input: string)
    ensures Processed(Processed(input)) == Processed(input)
  {
    var v := Processed(input);
    LowerOfNoUpper(v);
    TrimOfTrimmed(v);
  }

  /** Inputs that differ only in letter case and surrounding blanks get the
      same answer, and looking up an already normalised input again gives the
      same answer too. */
  lemma GetVnSeesOnlyProcessed<V>(a: string, b: string,
                                  request: (string, string) -> Result<string, AppErrors.AppError>,
                                  parse: string -> Result<V, string>)
    ensures Processed(a) == Processed(b) ==> GetVn(a, request, parse) == GetVn(b, request, parse)
    ensures GetVn(Processed(a), request, parse) == GetVn(a, request, parse)
  {
    if Processed(a) == Processed(b) {
      SameProcessedSameAnswer(a, b, request, parse);
    }
    ProcessedIsIdempotent(a);
    SameProcessedSameAnswer(Processed(a), a, request, parse);
  }

  lemma SameProcessedSameAnswer<V>(a: string, b: string,
                         request: (string, string) -> Result<string, AppErrors.AppError>,
                         parse: string -> Result<V, string>)
    requires Processed(a) == Processed(b)
    ensures GetVn(a, request, parse) == GetVn(b, request, parse)
  {
    assert QueryJson(a) == QueryJson(b);
  }

  /** Both filters send the same text after the value: only the filter name differs. */
  lemma SameFieldsForBothFilters(v: string, fields: string)
    ensures Body(IdFilter, v, fields)[|BodyPrefix(IdFilter)|..]
         == Body(SearchFilter, v, fields)[|BodyPrefix(SearchFilter)|..]
  {
    assert Body(IdFilter, v, fields)[|BodyPrefix(IdFilter)|..] == v + BodySuffix(fields);
    assert Body(SearchFilter, v, fields)[|BodyPrefix(SearchFilter)|..] == v + BodySuffix(fields);
  }

  /** The value is spliced in verbatim: it reads back unchanged. */
  lemma ValueRoundTrip(f: Filter, v: string, fields: string)
    ensures EmbeddedValue(f, Body(f, v, fields), fields) == Some(v)
  {
    var pre := BodyPrefix(f);
    var suf := BodySuffix(fields);
    var body := Body(f, v, fields);
    assert body[..|pre|] == pre;
    assert body[|body| - |suf|..] == suf;
    assert body[|pre|..|body| - |suf|] == v;
  }

  /** The request body of `get_vn` carries the processed input, under the filter it was classified as. */
  lemma QueryCarriesProcessedInput(input: string)
    ensures var v := Processed(input);
      EmbeddedValue(Classify(v), QueryJson(input), Fields) == Some(v)
  {
    var v := Processed(input);
    ValueRoundTrip(Classify(v), v, Fields);
  }

  /**
   * Nothing is escaped: every quote of the value lands in the body, so a
   * value with a '"' closes the JSON string early.
   */
  lemma QuotesAreNotEscaped(f: Filter, v: string, fields: string)
    ensures multiset(Body(f, v, fields))['"']
         == multiset(BodyPrefix(f) + BodySuffix(fields))['"'] + multiset(v)['"']
  {
    assert multiset(Body(f, v, fields)) == multiset(BodyPrefix(f)) + multiset(v) + multiset(BodySuffix(fields));
    assert multiset(BodyPrefix(f) + BodySuffix(fields)) == multiset(BodyPrefix(f)) + multiset(BodySuffix(fields));
  }
}
