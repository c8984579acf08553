/**
 * The AI "translation" command: it reads a language and a video or audio
 * attachment from the command options, checks the attachment's content
 * type and file extension, has the recording transcribed, translates the
 * transcript unless the language is "en", and cleans up the translated
 * text.
 */
module Translation {
  import opened Wrappers
  import Text

  /** The error values this command returns (each carries its message). */
  datatype TranslationError =
    | NoCommandOption(message: string)
    | OptionError(message: string)
    | DifferedFileTypeError(message: string)
    | DifferedFileExtensionError(message: string)
    | CommandSendingError(message: string)
    | DifferedGettingBytesError(message: string)
    | DifferedCopyBytesError(message: string)
    | DifferedTokenError(message: string)
    | DifferedResponseError(message: string)
    | DifferedCommandSendingError(message: string)

  /** An uploaded file: its declared content type and the path of its proxy URL. */
  datatype Attachment = Attachment(contentType: Option<string>, urlPath: string)

  datatype OptionValue = StringValue(text: string) | AttachmentValue(file: Attachment) | OtherValue

  datatype ResolvedOption = ResolvedOption(name: string, value: OptionValue)

  const LangOption: string := "lang_struct"
  const VideoOption: string := "video"
  const NoOptionMessage: string := "The command contain no option."

  predicate IsLang(o: ResolvedOption) {
    o.name == LangOption && o.value.StringValue?
  }

  predicate IsVideo(o: ResolvedOption) {
    o.name == VideoOption && o.value.AttachmentValue?
  }

  /** A "video" option that does not hold an attachment: the scan gives up on it. */
  predicate IsBadVideo(o: ResolvedOption) {
    o.name == VideoOption && !o.value.AttachmentValue?
  }

  // ------------------------------------------------------------ option scan

  /** The option loop, from the remaining options and the values found so far. */
  function ScanFrom(options: seq<ResolvedOption>, lang: string, video: Option<Attachment>)
    : Result<(string, Option<Attachment>), TranslationError>
    decreases |options|
  {
    if options == [] then Ok((lang, video))
    else
      var o := options[0];
      var lang' := if IsLang(o) then o.value.text else lang;
      if IsBadVideo(o) then Err(NoCommandOption(NoOptionMessage))
      else ScanFrom(options[1..], lang', if IsVideo(o) then Some(o.value.file) else video)
  }

  /** The `for option in options` loop: `lang` and `attachement` are overwritten as options come. */
  method ScanOptions(options: seq<ResolvedOption>) returns (r: Result<(string, Option<Attachment>), TranslationError>)
    ensures r == ScanFrom(options, "", None)
  {
    var lang := "";
    var video: Option<Attachment> := None;
    var i := 0;
    while i < |options|
      invariant 0 <= i <= |options|
      invariant ScanFrom(options[i..], lang, video) == ScanFrom(options, "", None)
    {
      var o := options[i];
      assert options[i..][1..] == options[i + 1..];
      if o.name == LangOption {
        if o.value.StringValue? {
          lang := o.value.text;
        }
      }
      if o.name == VideoOption {
        if o.value.AttachmentValue? {
          video := Some(o.value.file);
        } else {
          return Err(NoCommandOption(NoOptionMessage));
        }
      }
      i := i + 1;
    }
    r := Ok((lang, video));
  }

  /** The scan fails exactly when some "video" option is not an attachment. */
  lemma {:induction false} ScanFailsIff(options: seq<ResolvedOption>, lang: string, video: Option<Attachment>)
    ensures ScanFrom(options, lang, video).Err? <==> exists i :: 0 <= i < |options| && IsBadVideo(options[i])
    ensures ScanFrom(options, lang, video).Err? ==> ScanFrom(options, lang, video).error == NoCommandOption(NoOptionMessage)
    decreases |options|
  {
    if options != [] && !IsBadVideo(options[0]) {
      var o := options[0];
      ScanFailsIff(options[1..], if IsLang(o) then o.value.text else lang,
                   if IsVideo(o) then Some(o.value.file) else video);
      assert forall i :: 0 < i < |options| ==> options[i] == options[1..][i - 1];
    }
  }

  /** Without any "lang_struct" string option the language stays what it was ("" at the start). */
  lemma {:induction false} ScanLangDefault(options: seq<ResolvedOption>, lang: string, video: Option<Attachment>)
    requires forall i :: 0 <= i < |options| ==> !IsLang(options[i])
    ensures ScanFrom(options, lang, video).Ok? ==> ScanFrom(options, lang, video).value.0 == lang
    decreases |options|
  {
    if options != [] && !IsBadVideo(options[0]) {
      var o := options[0];
      assert forall i :: 0 <= i < |options| - 1 ==> options[1..][i] == options[i + 1];
      ScanLangDefault(options[1..], lang, if IsVideo(o) then Some(o.value.file) else video);
    }
  }

  /** The last "lang_struct" string option wins. */
  lemma {:induction false} ScanLangIsLast(options: seq<ResolvedOption>, lang: string, video: Option<Attachment>, k: nat)
    requires k < |options| && IsLang(options[k])
    requires forall j :: k < j < |options| ==> !IsLang(options[j])
    ensures ScanFrom(options, lang, video).Ok? ==> ScanFrom(options, lang, video).value.0 == options[k].value.text
    decreases |options|
  {
    var o := options[0];
    if !IsBadVideo(o) {
      var lang' := if IsLang(o) then o.value.text else lang;
      var video' := if IsVideo(o) then Some(o.value.file) else video;
      assert forall i :: 0 <= i < |options| - 1 ==> options[1..][i] == options[i + 1];
      if k == 0 {
        ScanLangDefault(options[1..], lang', video');
      } else {
        ScanLangIsLast(options[1..], lang', video', k - 1);
      }
    }
  }

  /** Without any "video" attachment the attachment stays what it was (none at the start). */
  lemma {:induction false} ScanVideoDefault(options: seq<ResolvedOption>, lang: string, video: Option<Attachment>)
    requires forall i :: 0 <= i < |options| ==> !IsVideo(options[i])
    ensures ScanFrom(options, lang, video).Ok? ==> ScanFrom(options, lang, video).value.1 == video
    decreases |options|
  {
    if options != [] && !IsBadVideo(options[0]) {
      var o := options[0];
      assert forall i :: 0 <= i < |options| - 1 ==> options[1..][i] == options[i + 1];
      ScanVideoDefault(options[1..], if IsLang(o) then o.value.text else lang, video);
    }
  }

  /** The last "video" attachment wins. */
  lemma {:induction false} ScanVideoIsLast(options: seq<ResolvedOption>, lang: string, video: Option<Attachment>, k: nat)
    requires k < |options| && IsVideo(options[k])
    requires forall j :: k < j < |options| ==> !IsVideo(options[j])
    ensures ScanFrom(options, lang, video).Ok? ==> ScanFrom(options, lang, video).value.1 == Some(options[k].value.file)
    decreases |options|
  {
    var o := options[0];
    if !IsBadVideo(o) {
      var lang' := if IsLang(o) then o.value.text else lang;
      var video' := if IsVideo(o) then Some(o.value.file) else video;
      assert forall i :: 0 <= i < |options| - 1 ==> options[1..][i] == options[i + 1];
      if k == 0 {
        ScanVideoDefault(options[1..], lang', video');
      } else {
        ScanVideoIsLast(options[1..], lang', video', k - 1);
      }
    }
  }

  // ------------------------------------------------------------- validation

  /** The text after the last `c`, or all of `s` when it has none (`rsplit(c).next()`). */
  function AfterLast(s: string, c: char): (r: string)
    ensures c !in r
    ensures |r| <= |s| && r == s[|s| - |r|..]
    ensures |r| < |s| ==> s[|s| - |r| - 1] == c
  {
    if s == [] then []
    else if s[|s| - 1] == c then []
    else AfterLast(s[..|s| - 1], c) + [s[|s| - 1]]
  }

  /** The lower-cased extension of the last path segment. */
  function Extension(urlPath: string): string {
    Text.AsciiLower(AfterLast(AfterLast(urlPath, '/'), '.'))
  }

  const AllowedExtensions: seq<string> := ["mp3", "mp4", "mpeg", "mpga", "m4a", "wav", "webm"]

  predicate IsMediaType(contentType: string) {
    Text.StartsWith(contentType, "audio/") || Text.StartsWith(contentType, "video/")
  }

  /**
   * The checks before the download, in order: an attachment is required, it
   * must declare a content type, that type must be audio or video, and the
   * extension must be an allowed one. The result is (content type, extension).
   */
  function Validate(video: Option<Attachment>): (r: Result<(string, string), TranslationError>)
    ensures r.Ok? <==>
      video.Some? && video.value.contentType.Some? && IsMediaType(video.value.contentType.value)
      && Extension(video.value.urlPath) in AllowedExtensions
    ensures r.Ok? ==> r.value == (video.value.contentType.value, Extension(video.value.urlPath))
    ensures video.None? ==> r == Err(NoCommandOption(NoOptionMessage))
    ensures video.Some? && video.value.contentType.None? ==> r == Err(OptionError("There is no option"))
    ensures video.Some? && video.value.contentType.Some? && !IsMediaType(video.value.contentType.value)
            ==> r == Err(DifferedFileTypeError("Bad file type."))
    ensures video.Some? && video.value.contentType.Some? && IsMediaType(video.value.contentType.value)
            && Extension(video.value.urlPath) !in AllowedExtensions
            ==> r == Err(DifferedFileExtensionError("Bad file extension"))
  {
    match video
    case None => Err(NoCommandOption(NoOptionMessage))
    case Some(att) =>
      match att.contentType
      case None => Err(OptionError("There is no option"))
      case Some(ct) =>
        if !IsMediaType(ct) then Err(DifferedFileTypeError("Bad file type."))
        else
          var ext := Extension(att.urlPath);
          if ext !in AllowedExtensions then Err(DifferedFileExtensionError("Bad file extension"))
          else Ok((ct, ext))
  }

  /** Everything after the last `c`, whatever comes before it. */
  lemma {:induction false} AfterLastOfJoined(a: string, c: char, b: string)
    requires c !in b
    ensures AfterLast(a + [c] + b, c) == b
    decreases |b|
  {
    var s := a + [c] + b;
    if b == [] {
      assert s[|s| - 1] == c;
    } else {
      var b' := b[..|b| - 1];
      assert s[..|s| - 1] == a + [c] + b';
      assert s[|s| - 1] == b[|b| - 1] && b[|b| - 1] in b;
      assert forall k :: 0 <= k < |b'| ==> b'[k] == b[k];
      AfterLastOfJoined(a, c, b');
      assert b' + [b[|b| - 1]] == b;
    }
  }

  /** Without any `c` the whole text is kept. */
  lemma {:induction false} AfterLastAbsent(s: string, c: char)
    requires c !in s
    ensures AfterLast(s, c) == s
    decreases |s|
  {
    if s != [] {
      var s' := s[..|s| - 1];
      assert s[|s| - 1] in s;
      assert forall k :: 0 <= k < |s'| ==> s'[k] == s[k];
      AfterLastAbsent(s', c);
      assert s' + [s[|s| - 1]] == s;
    }
  }

  /**
   * The extension of ".../name.ext" is `ext` lower-cased, whatever the
   * directories before the last segment contain.
   */
  lemma ExtensionOfFileName(dir: string, name: string, ext: string)
    requires '/' !in name && '/' !in ext && '.' !in ext
    ensures Extension(dir + "/" + name + "." + ext) == Text.AsciiLower(ext)
  {
    var segment := name + "." + ext;
    assert '/' !in segment;
    assert dir + "/" + name + "." + ext == dir + ['/'] + segment;
    AfterLastOfJoined(dir, '/', segment);
    assert segment == name + ['.'] + ext;
    AfterLastOfJoined(name, '.', ext);
  }

  /** An audio or video upload ".../name.ext" passes exactly when `ext`,
      lower-cased, is an allowed extension, whatever the directories and the
      name say; it then yields its content type and that extension. */
  lemma ValidateFileName(dir: string, name: string, ext: string, contentType: string)
    requires '/' !in name && '/' !in ext && '.' !in ext
    requires IsMediaType(contentType)
    ensures var r := Validate(Some(Attachment(Some(contentType), dir + "/" + name + "." + ext)));
      (r.Ok? <==> Text.AsciiLower(ext) in AllowedExtensions)
      && (r.Ok? ==> r.value == (contentType, Text.AsciiLower(ext)))
      && (r.Err? ==> r == Err(DifferedFileExtensionError("Bad file extension")))
  {
    var path := dir + "/" + name + "." + ext;
    ExtensionOfFileName(dir, name, ext);
    assert Extension(path) == Text.AsciiLower(ext);
  }

  /** A last segment without a dot counts as its own extension: ".../mp3" passes. */
  lemma DotlessSegmentIsExtension(dir: string, segment: string)
    requires '/' !in segment && '.' !in segment
    ensures Extension(dir + "/" + segment) == Text.AsciiLower(segment)
  {
    assert dir + "/" + segment == dir + ['/'] + segment;
    AfterLastOfJoined(dir, '/', segment);
    AfterLastAbsent(segment, '.');
  }

  // -------------------------------------------------------- post-processing

  /** `content.replace('"', "").replace("\\n", " \\n ")` on the translated text. */
  function PostProcess(content: string): string {
    Text.ReplaceAll(Text.RemoveChar(content, '"'), "\\n", " \\n ")
  }

  /** No quote survives post-processing. */
  lemma PostProcessRemovesQuotes(content: string)
    ensures '"' !in PostProcess(content)
  {
    Text.ReplaceAllAvoids(Text.RemoveChar(content, '"'), "\\n", " \\n ", '"');
  }

  /** A text with neither a quote nor an escaped newline passes through unchanged. */
  lemma PostProcessKeepsPlainText(content: string)
    requires '"' !in content && !Text.Contains(content, "\\n")
    ensures PostProcess(content) == content
  {
    var stripped := Text.RemoveChar(content, '"');
    assert stripped == content by {
      RemoveAbsentChar(content, '"');
    }
    Text.ReplaceAllAbsent(stripped, "\\n", " \\n ");
  }

  lemma {:induction false} RemoveAbsentChar(s: string, c: char)
    requires c !in s
    ensures Text.RemoveChar(s, c) == s
    decreases |s|
  {
    if s != [] {
      assert s[0] != c;
      assert forall k :: 0 <= k < |s[1..]| ==> s[1..][k] == s[k + 1];
      RemoveAbsentChar(s[1..], c);
      assert [s[0]] + s[1..] == s;
    }
  }

  // ----------------------------------------------------------- the command

  /**
   * `run`: the scan, the validation, then the transcription (download,
   * token, upload and reply folded into `transcribe`, which receives the
   * attachment, its content type, extension and the language) and, unless
   * the language is "en", the translation oracle and post-processing. The
   * result is the text put in the followup embed.
   */
  function Run(options: seq<ResolvedOption>,
               transcribe: (Attachment, string, string, string) -> Result<string, TranslationError>,
               translate: (string, string) -> Result<string, TranslationError>)
    : (r: Result<string, TranslationError>)
    ensures ScanFrom(options, "", None).Err? ==> r == Err(NoCommandOption(NoOptionMessage))
    ensures ScanFrom(options, "", None).Ok? && Validate(ScanFrom(options, "", None).value.1).Err? ==>
      r == Err(Validate(ScanFrom(options, "", None).value.1).error)
    ensures var scan := ScanFrom(options, "", None);
      scan.Ok? && Validate(scan.value.1).Ok? ==>
        var v := Validate(scan.value.1).value;
        var t := transcribe(scan.value.1.value, v.0, v.1, scan.value.0);
        t.Err? ==> r == Err(t.error)
  {
    ScanFailsIff(options, "", None);
    match ScanFrom(options, "", None)
    case Err(e) => Err(e)
    case Ok((lang, video)) =>
      match Validate(video)
      case Err(e) => Err(e)
      case Ok((ct, ext)) =>
        match transcribe(video.value, ct, ext, lang)
        case Err(e) => Err(e)
        case Ok(text) =>
          if lang != "en" then
            match translate(lang, text)
            case Err(e) => Err(e)
            case Ok(content) => Ok(PostProcess(content))
          else Ok(text)
  }

  /** The transcript that reaches the embed of a successful run. */
  function Transcript(options: seq<ResolvedOption>,
                      transcribe: (Attachment, string, string, string) -> Result<string, TranslationError>)
    : Option<string>
  {
    match ScanFrom(options, "", None)
    case Err(_) => None
    case Ok((lang, video)) =>
      match Validate(video)
      case Err(_) => None
      case Ok((ct, ext)) =>
        match transcribe(video.value, ct, ext, lang)
        case Err(_) => None
        case Ok(text) => Some(text)
  }

  /** In English the transcript is returned as is and the translator is never asked. */
  lemma EnglishIsNotTranslated(options: seq<ResolvedOption>,
                               transcribe: (Attachment, string, string, string) -> Result<string, TranslationError>,
                               translate: (string, string) -> Result<string, TranslationError>)
    requires ScanFrom(options, "", None).Ok? && ScanFrom(options, "", None).value.0 == "en"
    requires Transcript(options, transcribe).Some?
    ensures Run(options, transcribe, translate) == Ok(Transcript(options, transcribe).value)
    ensures forall other: (string, string) -> Result<string, TranslationError> ::
      Run(options, transcribe, other) == Run(options, transcribe, translate)
  {
  }

  /**
   * Any other language, including the empty one used when no language is
   * given, goes through the translator, and the text returned carries no quote.
   */
  lemma OtherLanguagesAreTranslated(options: seq<ResolvedOption>,
                                    transcribe: (Attachment, string, string, string) -> Result<string, TranslationError>,
                                    translate: (string, string) -> Result<string, TranslationError>)
    requires ScanFrom(options, "", None).Ok? && ScanFrom(options, "", None).value.0 != "en"
    requires Transcript(options, transcribe).Some?
    ensures var lang := ScanFrom(options, "", None).value.0;
      var reply := translate(lang, Transcript(options, transcribe).value);
      Run(options, transcribe, translate) == (if reply.Ok? then Ok(PostProcess(reply.value)) else Err(reply.error))
    ensures Run(options, transcribe, translate).Ok? ==> '"' !in Run(options, transcribe, translate).value
  {
    var lang := ScanFrom(options, "", None).value.0;
    var reply := translate(lang, Transcript(options, transcribe).value);
    if reply.Ok? {
      PostProcessRemovesQuotes(reply.value);
    }
  }
}
