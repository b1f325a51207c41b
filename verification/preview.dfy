/** File-type classification in the preview pane
    (src/app/components/preview/preview.component.ts). Every classifier
    looks only at the lower-cased extension of the file name. */
module Preview {
  import Strings

  /** `'.' + (fileName.split('.').pop() || '')`: a dot followed by the text
      after the last dot of the name, or by the whole name when it has no
      dot. */
  function Extension(fileName: string): (r: string)
    ensures |r| >= 1 && r[0] == '.' && '.' !in r[1..]
    ensures |r| - 1 <= |fileName| && fileName[|fileName| - (|r| - 1)..] == r[1..]
    ensures |r| - 1 < |fileName| ==> fileName[|fileName| - |r|] == '.'
    ensures '.' !in fileName ==> r == "." + fileName
  {
    var pieces := Strings.Split(fileName, '.');
    Strings.SplitLastIsTail(fileName, '.');
    Strings.SplitNoSeparator(fileName, '.');
    "." + pieces[|pieces| - 1]
  }

  /** The extension as every classifier sees it. */
  function LowerExt(fileName: string): string {
    Strings.ToLower(Extension(fileName))
  }

  const ImageExtensions: seq<string> := [".jpg", ".jpeg", ".png", ".gif", ".bmp", ".webp", ".svg"]
  const VideoExtensions: seq<string> := [".mp4", ".webm", ".ogg"]
  const AudioExtensions: seq<string> := [".mp3", ".wav", ".ogg"]

  const MimeTypes: map<string, string> := map[
    ".jpg" := "image/jpeg", ".jpeg" := "image/jpeg", ".png" := "image/png",
    ".gif" := "image/gif", ".bmp" := "image/bmp", ".webp" := "image/webp",
    ".svg" := "image/svg+xml", ".pdf" := "application/pdf",
    ".mp4" := "video/mp4", ".webm" := "video/webm", ".ogg" := "video/ogg",
    ".mp3" := "audio/mpeg", ".wav" := "audio/wav"]

  const VideoTypes: map<string, string> := map[".mp4" := "video/mp4", ".webm" := "video/webm", ".ogg" := "video/ogg"]
  const AudioTypes: map<string, string> := map[".mp3" := "audio/mpeg", ".wav" := "audio/wav", ".ogg" := "audio/ogg"]

  const Icons: map<string, string> := map[
    ".jpg" := "image", ".jpeg" := "image", ".png" := "image", ".gif" := "gif",
    ".bmp" := "image", ".webp" := "image", ".svg" := "image", ".pdf" := "picture_as_pdf",
    ".mp4" := "movie", ".webm" := "movie", ".ogg" := "movie",
    ".mp3" := "audiotrack", ".wav" := "audiotrack"]

  const OctetStream := "application/octet-stream"
  const DefaultIcon := "insert_drive_file"

  /** `table[ext] || fallback`; no value in these tables is empty. */
  function LookupOr(table: map<string, string>, ext: string, fallback: string): string {
    if ext in table then table[ext] else fallback
  }

  predicate IsImageFile(fileName: string) {
    LowerExt(fileName) in ImageExtensions
  }

  predicate IsPdfFile(fileName: string) {
    LowerExt(fileName) == ".pdf"
  }

  predicate IsVideoFile(fileName: string) {
    LowerExt(fileName) in VideoExtensions
  }

  predicate IsAudioFile(fileName: string) {
    LowerExt(fileName) in AudioExtensions
  }

  /** `getFileType()`: the MIME type, octet-stream when unmapped. */
  function FileType(fileName: string): (r: string)
    ensures IsImageFile(fileName) <==> Strings.StartsWith(r, "image/")
    ensures IsPdfFile(fileName) <==> r == "application/pdf"
    ensures IsVideoFile(fileName) <==> Strings.StartsWith(r, "video/")
    ensures IsAudioFile(fileName) && !IsVideoFile(fileName) <==> Strings.StartsWith(r, "audio/")
    ensures r == OctetStream <==> !(IsImageFile(fileName) || IsPdfFile(fileName) || IsVideoFile(fileName) || IsAudioFile(fileName))
  {
    MimeTypeFamilies(LowerExt(fileName));
    LookupOr(MimeTypes, LowerExt(fileName), OctetStream)
  }

  /** The MIME table maps exactly the image extensions to `image/` types,
      the video extensions to `video/` types, the audio-only ones to
      `audio/` types and '.pdf' to the PDF type. */
  lemma MimeTypeFamilies(ext: string)
    ensures var r := LookupOr(MimeTypes, ext, OctetStream);
      && (ext in ImageExtensions <==> Strings.StartsWith(r, "image/"))
      && (ext == ".pdf" <==> r == "application/pdf")
      && (ext in VideoExtensions <==> Strings.StartsWith(r, "video/"))
      && (ext in AudioExtensions && ext !in VideoExtensions <==> Strings.StartsWith(r, "audio/"))
      && (r == OctetStream <==> ext !in ImageExtensions && ext != ".pdf" && ext !in VideoExtensions && ext !in AudioExtensions)
  {
    var r := LookupOr(MimeTypes, ext, OctetStream);
    if ext in MimeTypes {
      if ext == ".jpg" || ext == ".jpeg" || ext == ".png" || ext == ".gif" || ext == ".bmp" || ext == ".webp" || ext == ".svg" {
        assert r[..6] == "image/";
      } else if ext == ".pdf" {
        assert r[0] == 'a' && r[1] == 'p';
        assert "image/"[0] == 'i' && "video/"[0] == 'v' && "audio/"[1] == 'u';
      } else if ext == ".mp4" || ext == ".webm" || ext == ".ogg" {
        assert r[..6] == "video/";
      } else {
        assert ext == ".mp3" || ext == ".wav";
        assert r[..6] == "audio/";
      }
    } else {
      assert r == OctetStream;
      assert r[0] == 'a' && r[1] == 'p';
      assert "image/"[0] == 'i' && "video/"[0] == 'v' && "audio/"[1] == 'u';
      assert forall e :: e in ImageExtensions || e in VideoExtensions || e in AudioExtensions ==> e in MimeTypes;
    }
  }

  /** `getVideoType()`: empty outside the three video extensions. */
  function VideoType(fileName: string): (r: string)
    ensures r != "" <==> IsVideoFile(fileName)
    ensures r != "" ==> r == FileType(fileName)
  {
    LookupOr(VideoTypes, LowerExt(fileName), "")
  }

  /** `getAudioType()`: empty outside the three audio extensions. */
  function AudioType(fileName: string): (r: string)
    ensures r != "" <==> IsAudioFile(fileName)
    ensures r != "" && !IsVideoFile(fileName) ==> r == FileType(fileName)
  {
    LookupOr(AudioTypes, LowerExt(fileName), "")
  }

  /** `getFileIcon()`: the icon name, a generic file icon when unmapped. */
  function FileIcon(fileName: string): (r: string)
    ensures IsImageFile(fileName) <==> r in {"image", "gif"}
    ensures IsPdfFile(fileName) <==> r == "picture_as_pdf"
    ensures IsVideoFile(fileName) <==> r == "movie"
    ensures IsAudioFile(fileName) && !IsVideoFile(fileName) <==> r == "audiotrack"
    ensures r == DefaultIcon <==> FileType(fileName) == OctetStream
  {
    var ext := LowerExt(fileName);
    IconFamilies(ext);
    MimeTypeFamilies(ext);
    LookupOr(Icons, ext, DefaultIcon)
  }

  /** The icon table gives the image icons exactly to the image
      extensions, the movie icon to the video ones, the audio icon to the
      audio-only ones, the PDF icon to '.pdf', and the generic icon to
      everything else. */
  lemma IconFamilies(ext: string)
    ensures var r := LookupOr(Icons, ext, DefaultIcon);
      && (ext in ImageExtensions <==> r in {"image", "gif"})
      && (ext == ".pdf" <==> r == "picture_as_pdf")
      && (ext in VideoExtensions <==> r == "movie")
      && (ext in AudioExtensions && ext !in VideoExtensions <==> r == "audiotrack")
      && (r == DefaultIcon <==> ext !in ImageExtensions && ext != ".pdf" && ext !in VideoExtensions && ext !in AudioExtensions)
  {
    var r := LookupOr(Icons, ext, DefaultIcon);
    assert "image"[0] == 'i' && "gif"[0] == 'g' && "picture_as_pdf"[0] == 'p' && "movie"[0] == 'm' && "audiotrack"[0] == 'a';
    assert DefaultIcon[0] == 'i' && DefaultIcon[1] == 'n' && "image"[1] == 'm';
    if ext in ImageExtensions {
      assert r == "image" || r == "gif";
      assert ext in Icons;
    } else if ext == ".pdf" {
      assert r == "picture_as_pdf";
    } else if ext in VideoExtensions {
      assert r == "movie";
    } else if ext in AudioExtensions {
      assert r == "audiotrack";
    } else {
      assert ext !in Icons;
      assert r == DefaultIcon;
    }
  }

  /** The guard of `updatePreviewUrl`: a blob URL is made for previewable files. */
  predicate Previewable(fileName: string) {
    IsImageFile(fileName) || IsPdfFile(fileName) || IsVideoFile(fileName) || IsAudioFile(fileName)
  }

  /** Lower-casing a name lower-cases its extension. */
  lemma {:induction false} LowerExtOfLowerName(fileName: string)
    ensures LowerExt(fileName) == Extension(Strings.ToLower(fileName))
  {
    var p := Strings.Split(fileName, '.');
    var q := Strings.Split(Strings.ToLower(fileName), '.');
    Strings.ToLowerSplit(fileName, '.');
    var last := p[|p| - 1];
    assert q[|q| - 1] == Strings.ToLower(last);
    assert Extension(Strings.ToLower(fileName)) == "." + q[|q| - 1];
    assert Extension(fileName) == "." + last;
    LowerDotPrefix(last);
  }

  lemma LowerDotPrefix(x: string)
    ensures Strings.ToLower("." + x) == "." + Strings.ToLower(x)
  {
    var a := Strings.ToLower("." + x);
    var b := "." + Strings.ToLower(x);
    assert |a| == |b|;
    forall i | 0 <= i < |a|
      ensures a[i] == b[i]
    {
      if i > 0 {
        assert ("." + x)[i] == x[i - 1];
      }
    }
  }

  /** Names that differ only in letter case classify identically. */
  lemma CaseInsensitive(a: string, b: string)
    requires Strings.ToLower(a) == Strings.ToLower(b)
    ensures IsImageFile(a) == IsImageFile(b) && IsPdfFile(a) == IsPdfFile(b)
    ensures IsVideoFile(a) == IsVideoFile(b) && IsAudioFile(a) == IsAudioFile(b)
    ensures FileType(a) == FileType(b) && VideoType(a) == VideoType(b)
    ensures AudioType(a) == AudioType(b) && FileIcon(a) == FileIcon(b)
  {
    LowerExtOfLowerName(a);
    LowerExtOfLowerName(b);
  }

  /** The extension is what follows the last dot. */
  lemma ExtensionAfterLastDot(fileName: string, k: nat)
    requires k < |fileName| && fileName[k] == '.'
    requires '.' !in fileName[k + 1..]
    ensures Extension(fileName) == "." + fileName[k + 1..]
  {
    var r := Extension(fileName);
    assert r[1..] == fileName[k + 1..];
    assert r == [r[0]] + r[1..];
  }

  /** '.ogg', in any letter case, is both a video and an audio file; its
      MIME type and icon are the video ones. */
  lemma OggIsVideoAndAudio(fileName: string)
    requires LowerExt(fileName) == ".ogg"
    ensures IsVideoFile(fileName) && IsAudioFile(fileName)
    ensures FileType(fileName) == "video/ogg" && AudioType(fileName) == "audio/ogg"
    ensures VideoType(fileName) == "video/ogg" && FileIcon(fileName) == "movie"
  {
  }

  /** A concrete upper-case name: "clip.OGG" has extension ".OGG". */
  lemma UpperCaseOggExample()
    ensures LowerExt("clip.OGG") == ".ogg"
  {
    ExtensionAfterLastDot("clip.OGG", 4);
    assert "clip.OGG"[5..] == "OGG";
    assert Strings.ToLower(".OGG") == ".ogg";
  }
}
