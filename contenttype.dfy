/** The file-extension table and the MIME names of the media types. */
module ContentTypes {
  import opened Outcomes
  import opened Http

  /** The extension table: the media type registered for a dotted file
      extension, if any. Read-only for the lifetime of the process. */
  function Lookup(extension: seq<char>): (r: Option<ContentType>)
    ensures r.Some? ==> |extension| >= 2 && extension[0] == '.'
  {
    match extension
    case ".aac" => Some(AudioAac)
    case ".abw" => Some(ApplicationXAbiWord)
    case ".arc" => Some(ApplicationXFreeArc)
    case ".avif" => Some(ImageAvif)
    case ".avi" => Some(VideoXMsVideo)
    case ".azw" => Some(ApplicationVndAmazonEbook)
    case ".bmp" => Some(ImageBmp)
    case ".bz" => Some(ApplicationXBzip)
    case ".bz2" => Some(ApplicationXBzip2)
    case ".cda" => Some(ApplicationXCdf)
    case ".csh" => Some(ApplicationXCsh)
    case ".csv" => Some(TextCsv)
    case ".doc" => Some(ApplicationMsWord)
    case ".docx" => Some(ApplicationVndOpenXMLWord)
    case ".eot" => Some(ApplicationVndMsFont)
    case ".epub" => Some(ApplicationEPub)
    case ".gz" => Some(ApplicationGZip)
    case ".gif" => Some(ImageGif)
    case ".htm" => Some(TextHtml)
    case ".html" => Some(TextHtml)
    case ".ico" => Some(ImageVndMicrosoftIcon)
    case ".ics" => Some(TextCalendar)
    case ".jar" => Some(ApplicationJavaArchive)
    case ".jpeg" => Some(ImageJpeg)
    case ".jpg" => Some(ImageJpeg)
    case ".jsonld" => Some(ApplicationLdJson)
    case ".mid" => Some(AudioMidi)
    case ".midi" => Some(AudioMidi)
    case ".mjs" => Some(TextJavascript)
    case ".mp3" => Some(AudioMpeg)
    case ".mp4" => Some(VideoMp4)
    case ".mpeg" => Some(VideoMpeg)
    case ".mpkg" => Some(ApplicationBndAppleInstaller)
    case ".odp" => Some(ApplicationVndOasisOpenPresentation)
    case ".ods" => Some(ApplicationVndOasisOpenSpreadsheet)
    case ".odt" => Some(ApplicationVndOasisOpenText)
    case ".oga" => Some(AudioOgg)
    case ".ogv" => Some(VideoOgg)
    case ".ogx" => Some(ApplicationOgg)
    case ".opus" => Some(AudioOpus)
    case ".oft" => Some(FontOft)
    case ".png" => Some(ImagePng)
    case ".pdf" => Some(ApplicationPdf)
    case ".php" => Some(ApplicationXHttpdPhp)
    case ".ppt" => Some(ApplicationVndMsPowerpoint)
    case ".pptx" => Some(ApplicationVndOpenXMLPresentation)
    case ".rar" => Some(ApplicationVndRar)
    case ".rtf" => Some(ApplicationRTF)
    case ".sh" => Some(ApplicationXSh)
    case ".svg" => Some(ImageSvg)
    case ".tar" => Some(ApplicationXTar)
    case ".tif" => Some(ImageTiff)
    case ".tiff" => Some(ImageTiff)
    case ".ts" => Some(VideoMp2t)
    case ".ttf" => Some(ApplicationVndVisio)
    case ".wav" => Some(AudioWav)
    case ".weba" => Some(AudioWebm)
    case ".webm" => Some(VideoWebm)
    case ".webp" => Some(ImageWebp)
    case ".woff" => Some(FontWoff)
    case ".woff2" => Some(FontWoff2)
    case ".xhtml" => Some(ApplicationXHtml)
    case ".xls" => Some(ApplicationVndMsExcel)
    case ".xlsx" => Some(ApplicationVndOpenXMLSpreadsheet)
    case ".xml" => Some(ApplicationXml)
    case ".xul" => Some(ApplicationVndMozillaXul)
    case ".zip" => Some(ApplicationZip)
    case ".7z" => Some(Application7Zip)
    case ".txt" => Some(TextPlain)
    case ".css" => Some(TextCss)
    case ".js" => Some(TextJavascript)
    case ".json" => Some(ApplicationJson)
    case ".bin" => Some(ApplicationOctetStream)
    case _ => None
  }


  /** Exact, case-sensitive lookup of a dotted extension, octet-stream when absent. */
  function FromFileExtension(extension: seq<char>): (t: ContentType)
    ensures Lookup(extension).None? ==> t == ApplicationOctetStream
    ensures Lookup(extension).Some? ==> t == Lookup(extension).value
  {
    match Lookup(extension)
    case None => ApplicationOctetStream
    case Some(found) => found
  }

  /** The MIME name announced for a media type. */
  function MimeName(t: ContentType): (s: seq<char>)
  {
    match t
    case AudioAac => "audio/aac"
    case ApplicationXAbiWord => "application/x-abiword"
    case ApplicationXFreeArc => "application/x-freearc"
    case ImageAvif => "image/avif"
    case VideoXMsVideo => "video/x-msvideo"
    case ApplicationVndAmazonEbook => "application/vnd.amazon.ebook"
    case ImageBmp => "image/bmp"
    case ApplicationXBzip => "application/x-bzip"
    case ApplicationXBzip2 => "application/x-bzip2"
    case ApplicationXCdf => "application/x-cdf"
    case ApplicationXCsh => "application/x-csh"
    case TextCsv => "text/csv"
    case ApplicationMsWord => "application/msword"
    case ApplicationVndOpenXMLWord => "application/vnd.openxmlformats-officedocument.wordprocessingml.document"
    case ApplicationVndMsFont => "application/vnd.ms-fontobject"
    case ApplicationEPub => "application/epub+zip"
    case ApplicationGZip => "application/gzip"
    case ImageGif => "image/gif"
    case ImageVndMicrosoftIcon => "image/vnd.microsoft.icon"
    case TextCalendar => "\ttext/calendar"
    case ApplicationJavaArchive => "application/java-archive"
    case ApplicationLdJson => "application/ld+json"
    case AudioMidi => "audio/midi"
    case ImageJpeg => "image/jpeg"
    case AudioMpeg => "audio/mpeg"
    case VideoMp4 => "video/mp4"
    case VideoMpeg => "video/mpeg"
    case ApplicationBndAppleInstaller => "application/vnd.apple.installer+xml"
    case ApplicationVndOasisOpenPresentation => "application/vnd.oasis.opendocument.presentation"
    case ApplicationVndOasisOpenSpreadsheet => "application/vnd.oasis.opendocument.spreadsheet"
    case ApplicationVndOasisOpenText => "application/vnd.oasis.opendocument.text"
    case AudioOgg => "audio/ogg"
    case VideoOgg => "video/ogg"
    case ApplicationOgg => "application/ogg"
    case FontOft => "font/otf"
    case AudioOpus => "audio/opus"
    case ImagePng => "image/png"
    case ApplicationPdf => "application/pdf"
    case ApplicationXHttpdPhp => "application/x-httpd-php"
    case ApplicationVndMsPowerpoint => "application/vnd.ms-powerpoint"
    case ApplicationVndOpenXMLPresentation => "application/vnd.openxmlformats-officedocument.presentationml.presentation"
    case ApplicationVndRar => "application/vnd.rar"
    case ApplicationRTF => "application/rtf"
    case ApplicationXSh => "application/x-sh"
    case ImageSvg => "image/svg+xml"
    case ApplicationXTar => "application/x-tar"
    case ImageTiff => "image/tiff"
    case VideoMp2t => "video/mp2t"
    case ApplicationVndVisio => "application/vnd.visio"
    case AudioWav => "audio/wav"
    case AudioWebm => "audio/webm"
    case VideoWebm => "video/webm"
    case ImageWebp => "image/webp"
    case FontWoff => "font/woff"
    case FontWoff2 => "font/woff2"
    case ApplicationXHtml => "application/xhtml+xml"
    case ApplicationVndMsExcel => "application/vnd.ms-excel"
    case ApplicationVndOpenXMLSpreadsheet => "application/vnd.openxmlformats-officedocument.spreadsheetml.sheet"
    case ApplicationXml => "application/xml"
    case ApplicationVndMozillaXul => "application/vnd.mozilla.xul+xml"
    case ApplicationZip => "application/zip"
    case Application7Zip => "application/x-7z-compressed"
    case TextPlain => "text/plain"
    case TextHtml => "text/html"
    case TextCss => "text/css"
    case TextJavascript => "text/javascript"
    case ApplicationJson => "application/json"
    case ApplicationOctetStream => "application/octet-stream"
  }

  /** Every media type has a non-empty MIME name. */
  lemma MimeNamesNonEmpty(t: ContentType)
    ensures |MimeName(t)| > 0
  {
    if t.AudioAac? || t.ApplicationXAbiWord? || t.ApplicationXFreeArc? || t.ImageAvif? ||
        t.VideoXMsVideo? || t.ApplicationVndAmazonEbook? || t.ImageBmp? ||
        t.ApplicationXBzip? || t.ApplicationXBzip2? || t.ApplicationXCdf? ||
        t.ApplicationXCsh? || t.TextCsv? || t.ApplicationMsWord? ||
        t.ApplicationVndOpenXMLWord? || t.ApplicationVndMsFont? || t.ApplicationEPub? ||
        t.ApplicationGZip? {
      NonEmptyNamesFirst(t);
    } else if t.ImageGif? || t.ImageVndMicrosoftIcon? || t.TextCalendar? ||
        t.ApplicationJavaArchive? || t.ApplicationLdJson? || t.AudioMidi? || t.ImageJpeg? ||
        t.AudioMpeg? || t.VideoMp4? || t.VideoMpeg? || t.ApplicationBndAppleInstaller? ||
        t.ApplicationVndOasisOpenPresentation? || t.ApplicationVndOasisOpenSpreadsheet? ||
        t.ApplicationVndOasisOpenText? || t.AudioOgg? || t.VideoOgg? || t.ApplicationOgg? {
      NonEmptyNamesSecond(t);
    } else if t.FontOft? || t.AudioOpus? || t.ImagePng? || t.ApplicationPdf? ||
        t.ApplicationXHttpdPhp? || t.ApplicationVndMsPowerpoint? ||
        t.ApplicationVndOpenXMLPresentation? || t.ApplicationVndRar? || t.ApplicationRTF? ||
        t.ApplicationXSh? || t.ImageSvg? || t.ApplicationXTar? || t.ImageTiff? ||
        t.VideoMp2t? || t.ApplicationVndVisio? || t.AudioWav? || t.AudioWebm? {
      NonEmptyNamesThird(t);
    } else {
      NonEmptyNamesFourth(t);
    }
  }

  /** The first quarter of the table, in declaration order. */
  lemma NonEmptyNamesFirst(t: ContentType)
    requires t.AudioAac? || t.ApplicationXAbiWord? || t.ApplicationXFreeArc? || t.ImageAvif? ||
      t.VideoXMsVideo? || t.ApplicationVndAmazonEbook? || t.ImageBmp? || t.ApplicationXBzip? ||
      t.ApplicationXBzip2? || t.ApplicationXCdf? || t.ApplicationXCsh? || t.TextCsv? ||
      t.ApplicationMsWord? || t.ApplicationVndOpenXMLWord? || t.ApplicationVndMsFont? ||
      t.ApplicationEPub? || t.ApplicationGZip?
    ensures |MimeName(t)| > 0
  {
    match t
    case AudioAac =>
    case ApplicationXAbiWord =>
    case ApplicationXFreeArc =>
    case ImageAvif =>
    case VideoXMsVideo =>
    case ApplicationVndAmazonEbook =>
    case ImageBmp =>
    case ApplicationXBzip =>
    case ApplicationXBzip2 =>
    case ApplicationXCdf =>
    case ApplicationXCsh =>
    case TextCsv =>
    case ApplicationMsWord =>
    case ApplicationVndOpenXMLWord =>
    case ApplicationVndMsFont =>
    case ApplicationEPub =>
    case ApplicationGZip =>
    case _ => assert false;
  }

  /** The second quarter of the table, in declaration order. */
  lemma NonEmptyNamesSecond(t: ContentType)
    requires t.ImageGif? || t.ImageVndMicrosoftIcon? || t.TextCalendar? ||
      t.ApplicationJavaArchive? || t.ApplicationLdJson? || t.AudioMidi? || t.ImageJpeg? ||
      t.AudioMpeg? || t.VideoMp4? || t.VideoMpeg? || t.ApplicationBndAppleInstaller? ||
      t.ApplicationVndOasisOpenPresentation? || t.ApplicationVndOasisOpenSpreadsheet? ||
      t.ApplicationVndOasisOpenText? || t.AudioOgg? || t.VideoOgg? || t.ApplicationOgg?
    ensures |MimeName(t)| > 0
  {
    match t
    case ImageGif =>
    case ImageVndMicrosoftIcon =>
    case TextCalendar =>
    case ApplicationJavaArchive =>
    case ApplicationLdJson =>
    case AudioMidi =>
    case ImageJpeg =>
    case AudioMpeg =>
    case VideoMp4 =>
    case VideoMpeg =>
    case ApplicationBndAppleInstaller =>
    case ApplicationVndOasisOpenPresentation =>
    case ApplicationVndOasisOpenSpreadsheet =>
    case ApplicationVndOasisOpenText =>
    case AudioOgg =>
    case VideoOgg =>
    case ApplicationOgg =>
    case _ => assert false;
  }

  /** The third quarter of the table, in declaration order. */
  lemma NonEmptyNamesThird(t: ContentType)
    requires t.FontOft? || t.AudioOpus? || t.ImagePng? || t.ApplicationPdf? ||
      t.ApplicationXHttpdPhp? || t.ApplicationVndMsPowerpoint? ||
      t.ApplicationVndOpenXMLPresentation? || t.ApplicationVndRar? || t.ApplicationRTF? ||
      t.ApplicationXSh? || t.ImageSvg? || t.ApplicationXTar? || t.ImageTiff? || t.VideoMp2t? ||
      t.ApplicationVndVisio? || t.AudioWav? || t.AudioWebm?
    ensures |MimeName(t)| > 0
  {
    match t
    case FontOft =>
    case AudioOpus =>
    case ImagePng =>
    case ApplicationPdf =>
    case ApplicationXHttpdPhp =>
    case ApplicationVndMsPowerpoint =>
    case ApplicationVndOpenXMLPresentation =>
    case ApplicationVndRar =>
    case ApplicationRTF =>
    case ApplicationXSh =>
    case ImageSvg =>
    case ApplicationXTar =>
    case ImageTiff =>
    case VideoMp2t =>
    case ApplicationVndVisio =>
    case AudioWav =>
    case AudioWebm =>
    case _ => assert false;
  }

  /** The fourth quarter of the table, in declaration order. */
  lemma NonEmptyNamesFourth(t: ContentType)
    requires t.VideoWebm? || t.ImageWebp? || t.FontWoff? || t.FontWoff2? || t.ApplicationXHtml? ||
      t.ApplicationVndMsExcel? || t.ApplicationVndOpenXMLSpreadsheet? || t.ApplicationXml? ||
      t.ApplicationVndMozillaXul? || t.ApplicationZip? || t.Application7Zip? || t.TextPlain? ||
      t.TextHtml? || t.TextCss? || t.TextJavascript? || t.ApplicationJson? ||
      t.ApplicationOctetStream?
    ensures |MimeName(t)| > 0
  {
    match t
    case VideoWebm =>
    case ImageWebp =>
    case FontWoff =>
    case FontWoff2 =>
    case ApplicationXHtml =>
    case ApplicationVndMsExcel =>
    case ApplicationVndOpenXMLSpreadsheet =>
    case ApplicationXml =>
    case ApplicationVndMozillaXul =>
    case ApplicationZip =>
    case Application7Zip =>
    case TextPlain =>
    case TextHtml =>
    case TextCss =>
    case TextJavascript =>
    case ApplicationJson =>
    case ApplicationOctetStream =>
    case _ => assert false;
  }

  /** Text that does not start with a dot is never registered, so it is
      announced as application/octet-stream: "html" is unknown although
      ".html" is registered. */
  lemma UndottedIsOctetStream(e: seq<char>)
    requires |e| == 0 || e[0] != '.'
    ensures FromFileExtension(e) == ApplicationOctetStream
    ensures MimeName(FromFileExtension(e)) == "application/octet-stream"
  {
    var found := Lookup(e);
  }

  /** The match is exact and case-sensitive on the dotted text. */
  lemma ExactCaseSensitiveLookup()
    ensures FromFileExtension(".html") == TextHtml
    ensures FromFileExtension("html") == ApplicationOctetStream
    ensures FromFileExtension(".HTML") == ApplicationOctetStream
  {
  }

  /** Aliased extensions share a media type: ".htm" and ".html". */
  lemma HtmlAliases()
    ensures FromFileExtension(".htm") == FromFileExtension(".html") == TextHtml
  {
  }

  /** ".jpg" and ".jpeg" share a media type. */
  lemma JpegAliases()
    ensures FromFileExtension(".jpg") == FromFileExtension(".jpeg") == ImageJpeg
  {
  }

  /** ".js" and ".mjs" share a media type. */
  lemma JavascriptAliases()
    ensures FromFileExtension(".js") == FromFileExtension(".mjs") == TextJavascript
  {
  }

  /** Table entries whose names differ from the usual registrations. */
  lemma TableOddities()
    ensures MimeName(TextCalendar) == "\ttext/calendar"
    ensures FromFileExtension(".ttf") == ApplicationVndVisio
    ensures MimeName(FromFileExtension(".ttf")) == "application/vnd.visio"
  {
  }
}
