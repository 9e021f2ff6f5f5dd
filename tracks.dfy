/**
 * The per-file part of the success callback: the decoded tag record is
 * rewritten into the track record that the album pages show (lyrics,
 * comment, cover picture and file path).
 */
module Tracks {
  import opened Wrappers
  import opened JsStrings
  import JsNumber
  import Base64
  import Collections

  /**
   * A text tag as it may stand in the record: absent, the decoder's frame
   * object with its `text`/`lyrics` member, or a plain string. A frame
   * whose member is missing is modelled as one whose member is "": for the
   * lyrics both are falsy and left alone, but a comment frame without
   * `text` becomes undefined in the source and `Text("")` here.
   */
  datatype TextTag = Missing | Frame(text: string) | Text(value: string)

  /** The decoded tags of one file, as the tag decoder hands them over. */
  datatype Tags = Tags(
    artist: Option<string>,
    album: string,
    title: Option<string>,
    track: Option<string>,
    year: Option<string>,
    lyrics: TextTag,
    comment: TextTag,
    picture: Option<seq<Base64.byte>>)

  /** The record stored in an album's track list after the callback rewrote it. */
  datatype Track = Track(
    artist: Option<string>,
    album: string,
    title: Option<string>,
    track: Option<string>,
    year: Option<string>,
    lyrics: TextTag,
    comment: TextTag,
    picture: Option<string>,
    path: string)

  /** A line terminator the lyrics expression `/(\r\n|\n|\r)/gm` matches. */
  predicate IsBreak(c: char) {
    c == '\r' || c == '\n'
  }

  predicate NoBreaks(s: string) {
    forall i :: 0 <= i < |s| ==> !IsBreak(s[i])
  }

  /**
   * `s.replace(/(\r\n|\n|\r)/gm, '<br>')`: scanning left to right, a CR LF
   * pair, a lone LF or a lone CR becomes one "<br>".
   */
  function NewlinesToBr(s: string): string {
    if s == [] then []
    else if |s| >= 2 && s[0] == '\r' && s[1] == '\n' then "<br>" + NewlinesToBr(s[2..])
    else if IsBreak(s[0]) then "<br>" + NewlinesToBr(s[1..])
    else [s[0]] + NewlinesToBr(s[1..])
  }

  /** The rewritten text holds no line terminator. */
  lemma {:induction false} NewlinesToBrHasNoBreaks(s: string)
    ensures NoBreaks(NewlinesToBr(s))
  {
    if s != [] {
      var r := NewlinesToBr(s);
      if |s| >= 2 && s[0] == '\r' && s[1] == '\n' {
        NewlinesToBrHasNoBreaks(s[2..]);
        assert r == "<br>" + NewlinesToBr(s[2..]);
      } else if IsBreak(s[0]) {
        NewlinesToBrHasNoBreaks(s[1..]);
        assert r == "<br>" + NewlinesToBr(s[1..]);
      } else {
        NewlinesToBrHasNoBreaks(s[1..]);
        assert r == [s[0]] + NewlinesToBr(s[1..]);
      }
    }
  }

  /** Text without line terminators is left as it is. */
  lemma {:induction false} NewlinesToBrOfPlain(s: string)
    requires NoBreaks(s)
    ensures NewlinesToBr(s) == s
  {
    if s != [] {
      NewlinesToBrOfPlain(s[1..]);
    }
  }

  /**
   * The text before the first line terminator is kept, and that terminator,
   * whether CR LF, LF or a CR not followed by LF, becomes exactly one "<br>".
   */
  lemma {:induction false} NewlinesToBrAtBreak(a: string, t: string, b: string)
    requires NoBreaks(a)
    requires t == "\r\n" || t == "\n" || (t == "\r" && (b == [] || b[0] != '\n'))
    ensures NewlinesToBr(a + t + b) == a + "<br>" + NewlinesToBr(b)
  {
    if a == [] {
      assert a + t + b == t + b;
      NewlinesToBrOfBreak(t, b);
    } else {
      var s := a + t + b;
      var rest := a[1..] + t + b;
      NewlinesToBrAtBreak(a[1..], t, b);
      assert s[0] == a[0] && !IsBreak(a[0]);
      assert s[1..] == rest;
      assert NewlinesToBr(s) == [a[0]] + NewlinesToBr(rest);
      Collections.ConsAppend(a, "<br>", NewlinesToBr(b));
    }
  }

  /** A line terminator at the start becomes one "<br>". */
  lemma NewlinesToBrOfBreak(t: string, b: string)
    requires t == "\r\n" || t == "\n" || (t == "\r" && (b == [] || b[0] != '\n'))
    ensures NewlinesToBr(t + b) == "<br>" + NewlinesToBr(b)
  {
    var s := t + b;
    assert s[|t|..] == b;
    if t == "\r" && b != [] { assert s[1] == b[0]; }
  }

  /**
   * The lyrics rewrite: a lyrics frame whose `lyrics` member is a non-empty
   * string is replaced by that string with its line terminators turned
   * into "<br>"; anything else is left as it is.
   */
  function RewriteLyrics(lyrics: TextTag): TextTag {
    match lyrics
    case Frame(text) => if text != "" then Text(NewlinesToBr(text)) else lyrics
    case _ => lyrics
  }

  /**
   * The comment rewrite: a present comment is replaced by its `text`
   * member. A plain-string comment has no such member, so it becomes
   * undefined; the empty string is falsy and stays.
   */
  function RewriteComment(comment: TextTag): TextTag {
    match comment
    case Missing => Missing
    case Frame(text) => Text(text)
    case Text(value) => if value != "" then Missing else comment
  }

  /** The prefix given to the base 64 text of the cover. */
  const DataUriPrefix: string := "data:image/jpeg;base64,"

  /** The `data:` URI the callback makes of the cover bytes. */
  function DataUri(data: seq<Base64.byte>): string {
    DataUriPrefix + Base64.Btoa(Base64.BinaryString(data))
  }

  /** The `String.fromCharCode` loop over the picture bytes. */
  method BinaryStringOf(data: seq<Base64.byte>) returns (s: string)
    ensures s == Base64.BinaryString(data)
  {
    s := "";
    var i := 0;
    while i < |data|
      invariant 0 <= i <= |data|
      invariant s == Base64.BinaryString(data[..i])
    {
      s := s + [(data[i] as int) as char];
      i := i + 1;
    }
    assert data[..i] == data;
  }

  /** The working directory with the platform separator turned into '/'. */
  function Dirname(cwd: string, sep: string): string {
    Join(Split(cwd, sep), "/")
  }

  /** `file.split(dirname).join("")`: every occurrence of `dirname` removed. */
  function StripDir(file: string, dirname: string): string {
    Join(Split(file, dirname), "")
  }

  /** Under a '/' separator the working directory is used unchanged. */
  lemma DirnameSlash(cwd: string)
    ensures Dirname(cwd, "/") == cwd
  {
    JoinSplit(cwd, "/");
  }

  /**
   * A file below the working directory whose remaining path does not
   * contain the directory text again keeps the part after it, so the
   * working directory followed by the recorded path is the file again.
   */
  lemma StripDirRoundTrip(dirname: string, rest: string)
    requires dirname != [] && Free(rest, dirname)
    ensures StripDir(dirname + rest, dirname) == rest
    ensures dirname + StripDir(dirname + rest, dirname) == dirname + rest
  {
    SplitLeading(dirname, rest);
    JoinCons("", [rest], "");
  }

  /**
   * Every occurrence of the working directory is removed, not only the
   * leading one: a file below a directory named like the working
   * directory itself loses both, so the round trip above fails for it.
   */
  lemma StripDirRepeated(dirname: string, rest: string)
    requires dirname != [] && Free(rest, dirname)
    ensures StripDir(dirname + dirname + rest, dirname) == rest
    ensures dirname + StripDir(dirname + dirname + rest, dirname) != dirname + dirname + rest
  {
    SplitTwiceLeading(dirname, rest);
    JoinCons("", ["", rest], "");
    JoinCons("", [rest], "");
    assert |dirname + rest| < |dirname + dirname + rest|;
  }

  /** A file path in which the working directory does not occur is kept whole. */
  lemma StripDirOutside(file: string, dirname: string)
    requires dirname != [] && Free(file, dirname)
    ensures StripDir(file, dirname) == file
  {
    IndexOfSpec(file, dirname);
  }

  /** The track record the success callback makes of one decoded file. */
  function Prepare(tags: Tags, file: string, dirname: string): (t: Track)
    ensures t.album == tags.album && t.artist == tags.artist && t.title == tags.title
    ensures t.track == tags.track && t.year == tags.year
  {
    Track(
      tags.artist, tags.album, tags.title, tags.track, tags.year,
      RewriteLyrics(tags.lyrics),
      RewriteComment(tags.comment),
      match tags.picture { case Some(data) => Some(DataUri(data)) case None => None },
      StripDir(file, dirname))
  }

  /**
   * The cover of a prepared track is a `data:` URI whose base 64 part
   * decodes to exactly the bytes of the decoded picture.
   */
  lemma PreparedPictureDecodes(tags: Tags, file: string, dirname: string)
    requires tags.picture.Some?
    ensures var p := Prepare(tags, file, dirname).picture;
      p.Some? && |p.value| >= |DataUriPrefix| && p.value[..|DataUriPrefix|] == DataUriPrefix
      && Base64.Decode(p.value[|DataUriPrefix|..]) == Some(tags.picture.value)
  {
    var data := tags.picture.value;
    var uri := DataUri(data);
    assert uri[|DataUriPrefix|..] == Base64.Btoa(Base64.BinaryString(data));
    Base64.BtoaRoundTrip(data);
  }

  /** Lyrics that were rewritten hold no line terminator. */
  lemma PreparedLyricsHaveNoBreaks(tags: Tags, file: string, dirname: string)
    requires tags.lyrics.Frame? && tags.lyrics.text != ""
    ensures Prepare(tags, file, dirname).lyrics == Text(NewlinesToBr(tags.lyrics.text))
    ensures NoBreaks(Prepare(tags, file, dirname).lyrics.value)
  {
    NewlinesToBrHasNoBreaks(tags.lyrics.text);
  }

  /**
   * A comment frame is replaced by its text and a non-empty plain-string
   * comment by undefined; an absent or empty comment stays. So the stored
   * comment is never a non-empty plain string left as the decoder gave it.
   */
  lemma PreparedComment(tags: Tags, file: string, dirname: string)
    ensures var c := Prepare(tags, file, dirname).comment;
      && (tags.comment.Frame? ==> c == Text(tags.comment.text))
      && (tags.comment.Text? && tags.comment.value != "" ==> c == Missing)
      && (tags.comment == Missing || tags.comment == Text("") ==> c == tags.comment)
      && (c.Text? && c.value != "" ==> tags.comment == Frame(c.value))
  {
  }

  /** The number `parseInt(track.track)` orders a track by; None is NaN. */
  function TrackNumber(t: Track): Option<int> {
    JsNumber.ParseInt(ToText(t.track))
  }

  /** The year `parseInt(track.year)` reads; None is NaN. */
  function TrackYear(t: Track): Option<int> {
    JsNumber.ParseInt(ToText(t.year))
  }
}
