/**
 * The data script that builds the video catalogue from subject playlists: each entry gets an
 * id made of a two-letter subject prefix and a per-subject counter, a topic guessed from its
 * title and a `m:ss` duration. The playlist contents are an input; fetching them is not
 * modelled.
 */
module VideoCatalog {
  import opened Wrappers
  import opened Text
  import Seqs
  import Quiz

  // ---------------------------------------------------------------------------------------
  // guess_topic

  /** Index of the first line feed in `s`, or `|s|` when there is none. */
  function LineEnd(s: string): (k: nat)
    ensures k <= |s| && '\n' !in s[..k]
    ensures k < |s| ==> s[k] == '\n'
    decreases |s|
  {
    if s == [] then 0 else if s[0] == '\n' then 0 else 1 + LineEnd(s[1..])
  }

  /**
   * `re.sub(r'\|.*', '', s)`: from each `|` to the end of its line is removed; `.` does not
   * match a line feed, so the text of later lines stays.
   */
  function CutBars(s: string): (r: string)
    ensures '|' !in r
    decreases |s|
  {
    if s == [] then []
    else if s[0] == '|' then
      var k := LineEnd(s);
      assert k > 0;
      CutBars(s[k..])
    else [s[0]] + CutBars(s[1..])
  }

  /** A title without a bar is left as it is. */
  lemma {:induction false} CutNoBar(s: string)
    requires '|' !in s
    ensures CutBars(s) == s
    decreases |s|
  {
    if s != [] {
      CutNoBar(s[1..]);
      assert [s[0]] + s[1..] == s;
    }
  }

  /** A one-line title loses everything from its first `|` on. */
  lemma {:induction false} CutAtFirstBar(d: string, rest: string)
    requires '|' !in d && '\n' !in rest
    ensures CutBars(d + "|" + rest) == d
    decreases |d|
  {
    var s := d + "|" + rest;
    if d == [] {
      assert s == ['|'] + rest;
      assert '\n' !in s;
      assert s[|s|..] == [];
    } else {
      assert s[0] == d[0] && s[1..] == d[1..] + "|" + rest;
      CutAtFirstBar(d[1..], rest);
      assert [d[0]] + d[1..] == d;
    }
  }

  /** The first line feed after a line without one ends that line. */
  lemma LineEndAt(x: string, y: string)
    requires '\n' !in x
    ensures LineEnd(x + "\n" + y) == |x|
  {
    var s := x + "\n" + y;
    assert s[|x|] == '\n';
  }

  /** A bar removes only the rest of its own line: the line feed and what follows stay. */
  lemma {:induction false} CutKeepsNextLine(d: string, r: string, rest: string)
    requires '|' !in d && '\n' !in r
    ensures CutBars(d + "|" + r + "\n" + rest) == d + "\n" + CutBars(rest)
    decreases |d|
  {
    var s := d + "|" + r + "\n" + rest;
    if d == [] {
      assert s == "|" + r + "\n" + rest;
      LineEndAt("|" + r, rest);
      assert s[|r| + 1..] == "\n" + rest;
      assert ("\n" + rest)[1..] == rest;
    } else {
      assert s[0] == d[0] && s[1..] == d[1..] + "|" + r + "\n" + rest;
      CutKeepsNextLine(d[1..], r, rest);
      assert [d[0]] + (d[1..] + "\n" + CutBars(rest)) == d + "\n" + CutBars(rest);
    }
  }

  /** What `[^a-zA-Z0-9\s]` does not remove. */
  predicate CleanChar(c: char)
  {
    IsAsciiLetter(c) || IsDigit(c) || IsWhitespace(c)
  }

  predicate AllClean(s: string)
  {
    forall i :: 0 <= i < |s| ==> CleanChar(s[i])
  }

  /** `re.sub(r'[^a-zA-Z0-9\s]', '', s)`. */
  function KeepClean(s: string): (r: string)
    ensures AllClean(r)
    decreases |s|
  {
    if s == [] then [] else if CleanChar(s[0]) then [s[0]] + KeepClean(s[1..]) else KeepClean(s[1..])
  }

  /** The clean-up is the order-preserving filter on clean characters. */
  lemma {:induction false} KeepCleanIsFilter(s: string)
    ensures KeepClean(s) == Seqs.Filter(CleanChar, s)
    decreases |s|
  {
    if s != [] {
      KeepCleanIsFilter(s[1..]);
    }
  }

  /**
   * Letters, digits and whitespace all survive the clean-up, in order and with every copy,
   * and the other characters are all removed; a clean text is left as it is.
   */
  lemma KeepCleanKeeps(s: string)
    ensures Seqs.IsSubsequence(KeepClean(s), s)
    ensures forall c :: multiset(KeepClean(s))[c] == if CleanChar(c) then multiset(s)[c] else 0
    ensures AllClean(s) ==> KeepClean(s) == s
  {
    KeepCleanIsFilter(s);
    Seqs.FilterCounts(CleanChar, s);
    if AllClean(s) {
      Seqs.FilterAll(CleanChar, s);
    }
  }

  /**
   * `guess_topic`: cut at the bar, drop other characters, then the first three words joined
   * by single spaces when there are more than two words, and the stripped text otherwise.
   */
  function GuessTopic(title: string): string
  {
    var cleaned := KeepClean(CutBars(title));
    var words := Words(Trim(cleaned));
    if |words| > 2 then Join(words[..3], " ") else Trim(cleaned)
  }

  /** The guessed topic has the first three words of the cleaned title, or all of them when fewer. */
  lemma GuessTopicWords(title: string)
    ensures var words := Words(Trim(KeepClean(CutBars(title))));
      Words(GuessTopic(title)) == Seqs.Take(words, 3) && |Words(GuessTopic(title))| <= 3
    ensures var words := Words(Trim(KeepClean(CutBars(title))));
      |words| > 2 ==> GuessTopic(title) == Join(words[..3], " ")
    ensures |Words(Trim(KeepClean(CutBars(title))))| <= 2 ==> GuessTopic(title) == Trim(KeepClean(CutBars(title)))
  {
    var words := Words(Trim(KeepClean(CutBars(title))));
    if |words| > 2 {
      WordsOfJoin(words[..3]);
    }
  }

  lemma {:induction false} TrimStartClean(s: string)
    requires AllClean(s)
    ensures AllClean(TrimStart(s))
    decreases |s|
  {
    if s != [] && IsWhitespace(s[0]) {
      TrimStartClean(s[1..]);
    }
  }

  lemma {:induction false} TrimEndClean(s: string)
    requires AllClean(s)
    ensures AllClean(TrimEnd(s))
    decreases |s|
  {
    if s != [] && IsWhitespace(s[|s| - 1]) {
      TrimEndClean(s[..|s| - 1]);
    }
  }

  lemma {:induction false} JoinClean(ws: seq<string>)
    requires forall i :: 0 <= i < |ws| ==> AllClean(ws[i])
    ensures AllClean(Join(ws, " "))
    decreases |ws|
  {
    if |ws| > 1 {
      JoinClean(ws[1..]);
    }
  }

  lemma WordsClean(s: string)
    requires AllClean(s)
    ensures forall i :: 0 <= i < |Words(s)| ==> AllClean(Words(s)[i])
  {
    WordsContained(s);
    forall i | 0 <= i < |Words(s)|
      ensures AllClean(Words(s)[i])
    {
      var w := Words(s)[i];
      var p :| 0 <= p <= |s| && w <= s[p..];
      assert forall j :: 0 <= j < |w| ==> w[j] == s[p + j];
    }
  }

  /** The guessed topic consists of letters, digits and whitespace only. */
  lemma GuessTopicClean(title: string)
    ensures AllClean(GuessTopic(title))
  {
    var cleaned := KeepClean(CutBars(title));
    TrimStartClean(cleaned);
    TrimEndClean(TrimStart(cleaned));
    var words := Words(Trim(cleaned));
    if |words| > 2 {
      WordsClean(Trim(cleaned));
      JoinClean(words[..3]);
    }
  }

  // ---------------------------------------------------------------------------------------
  // Subject prefix, ids and durations

  /** `w.isalpha()` on ASCII text. */
  predicate IsAlphaWord(w: string)
  {
    w != [] && forall i :: 0 <= i < |w| ==> IsAsciiLetter(w[i])
  }

  function Initials(ws: seq<string>): (r: string)
    requires forall i :: 0 <= i < |ws| ==> ws[i] != []
    ensures |r| == |ws| && forall i :: 0 <= i < |ws| ==> r[i] == Lower(ws[i][0])
  {
    seq(|ws|, i requires 0 <= i < |ws| => Lower(ws[i][0]))
  }

  /** The lowercase ASCII letters. */
  predicate AllLowerLetters(s: string)
  {
    forall i :: 0 <= i < |s| ==> 'a' <= s[i] <= 'z'
  }

  /** The subject's prefix: lowercased initials of its purely alphabetic words, at most two. */
  function Prefix(subject: string): (p: string)
    ensures |p| <= 2 && AllLowerLetters(p)
  {
    var alpha := Seqs.Filter(IsAlphaWord, Words(subject));
    Seqs.Take(Initials(alpha), 2)
  }

  /** Two alphabetic words give their two initials, lowercased. */
  lemma PrefixOfTwoWords(a: string, b: string)
    requires IsAlphaWord(a) && IsAlphaWord(b)
    ensures Prefix(a + " " + b) == [Lower(a[0]), Lower(b[0])]
  {
    assert forall i :: 0 <= i < |a| ==> !IsWhitespace(a[i]);
    assert forall i :: 0 <= i < |b| ==> !IsWhitespace(b[i]);
    WordsOfJoin([a, b]);
    assert Join([a, b], " ") == a + " " + b;
    Seqs.FilterAll(IsAlphaWord, [a, b]);
  }

  /**
   * A subject given as its words: the prefix is the lowercased initials of the first two
   * purely alphabetic words, the other words being skipped.
   */
  lemma PrefixOfWords(ws: seq<string>)
    requires forall i :: 0 <= i < |ws| ==> ws[i] != [] && NoWhitespace(ws[i])
    ensures Prefix(Join(ws, " ")) == Seqs.Take(Initials(Seqs.Filter(IsAlphaWord, ws)), 2)
  {
    WordsOfJoin(ws);
  }

  function CustomId(prefix: string, n: nat): string
  {
    prefix + Decimal(n)
  }

  /** Letter prefixes and decimal counters never run together: an id determines both. */
  lemma CustomIdInjective(p1: string, n1: nat, p2: string, n2: nat)
    requires AllLowerLetters(p1) && AllLowerLetters(p2)
    requires CustomId(p1, n1) == CustomId(p2, n2)
    ensures p1 == p2 && n1 == n2
  {
    var s := CustomId(p1, n1);
    var d1, d2 := Decimal(n1), Decimal(n2);
    assert forall i :: 0 <= i < |p1| ==> s[i] == p1[i];
    assert forall i :: 0 <= i < |p2| ==> s[i] == p2[i];
    // the character after each prefix is a digit, and no prefix holds a digit
    assert s[|p1|] == d1[0] && IsDigit(d1[0]);
    assert s[|p2|] == d2[0] && IsDigit(d2[0]);
    assert |p1| == |p2|;
    assert p1 == s[..|p1|] && p2 == s[..|p2|];
    assert d1 == s[|p1|..] == d2;
    DecimalInjective(n1, n2);
  }

  /** `f"{d//60}:{d%60:02d}" if d else "N/A"`: a missing or zero duration shows "N/A". */
  function DurationString(duration: Option<nat>): string
  {
    if duration.None? || duration.value == 0 then "N/A" else Quiz.FormatTime(duration.value)
  }

  /** A duration is shown exactly when it is positive, and its text reads back to it. */
  lemma DurationShown(duration: Option<nat>)
    ensures DurationString(duration) == "N/A" <==> duration.None? || duration.value == 0
    ensures duration.Some? && duration.value > 0 ==>
      var parts := SplitOn(DurationString(duration), ':');
      |parts| == 2 && 60 * DigitsValue(parts[0], 10) + DigitsValue(parts[1], 10) == duration.value
  {
    if duration.Some? && duration.value > 0 {
      Quiz.FormatTimeReadsBack(duration.value);
    }
  }

  // ---------------------------------------------------------------------------------------
  // The catalogue loop

  /** One playlist entry as fetched: id, optional title, optional duration in seconds. */
  datatype PlaylistEntry = PlaylistEntry(videoId: string, title: Option<string>, duration: Option<nat>)

  datatype Playlist = Playlist(subject: string, entries: seq<PlaylistEntry>)

  /** One record of the written catalogue. */
  datatype CatalogVideo = CatalogVideo(
    id: string, videoId: string, title: string, topic: string,
    subject: string, duration: string, thumbnail: string)

  function Thumbnail(videoId: string): string
  {
    "https://img.youtube.com/vi/" + videoId + "/hqdefault.jpg"
  }

  /** The record for the `n`-th entry of a subject. */
  function MakeVideo(subject: string, n: nat, e: PlaylistEntry): CatalogVideo
  {
    var title := e.title.GetOr("Untitled");
    CatalogVideo(CustomId(Prefix(subject), n), e.videoId, title, GuessTopic(title), subject,
      DurationString(e.duration), Thumbnail(e.videoId))
  }

  /** A playlist's records: entry `j` gets counter `j + 1`. */
  function PlaylistVideos(subject: string, entries: seq<PlaylistEntry>): (vs: seq<CatalogVideo>)
    ensures |vs| == |entries|
  {
    seq(|entries|, j requires 0 <= j < |entries| => MakeVideo(subject, j + 1, entries[j]))
  }

  /** Entry `j` of a playlist is numbered `j + 1` and keeps the playlist's subject and video. */
  lemma PlaylistVideoFields(subject: string, entries: seq<PlaylistEntry>)
    ensures var vs := PlaylistVideos(subject, entries);
      forall j :: 0 <= j < |entries| ==>
        && vs[j].id == CustomId(Prefix(subject), j + 1)
        && vs[j].subject == subject
        && vs[j].videoId == entries[j].videoId
  {
  }

  /** One more entry adds one record, numbered after the others. */
  lemma PlaylistVideosSnoc(subject: string, entries: seq<PlaylistEntry>, i: nat)
    requires i < |entries|
    ensures PlaylistVideos(subject, entries[..i + 1])
      == PlaylistVideos(subject, entries[..i]) + [MakeVideo(subject, i + 1, entries[i])]
  {
    forall j | 0 <= j < i
      ensures PlaylistVideos(subject, entries[..i + 1])[j] == PlaylistVideos(subject, entries[..i])[j]
    {
      assert entries[..i + 1][j] == entries[..i][j];
    }
  }

  /** The catalogue: every playlist's records, in playlist order. */
  function Catalog(ps: seq<Playlist>): seq<CatalogVideo>
    decreases |ps|
  {
    if ps == [] then []
    else
      var n := |ps| - 1;
      Catalog(ps[..n]) + PlaylistVideos(ps[n].subject, ps[n].entries)
  }

  /** Within one subject's playlist no two records share an id. */
  lemma PlaylistIdsDistinct(subject: string, entries: seq<PlaylistEntry>)
    ensures var vs := PlaylistVideos(subject, entries);
      forall i, j :: 0 <= i < j < |vs| ==> vs[i].id != vs[j].id
  {
    var vs := PlaylistVideos(subject, entries);
    PlaylistVideoFields(subject, entries);
    forall i, j | 0 <= i < j < |vs|
      ensures vs[i].id != vs[j].id
    {
      if vs[i].id == vs[j].id {
        CustomIdInjective(Prefix(subject), i + 1, Prefix(subject), j + 1);
      }
    }
  }

  predicate DistinctSubjects(ps: seq<Playlist>)
  {
    forall i, j :: 0 <= i < j < |ps| ==> ps[i].subject != ps[j].subject
  }

  /**
   * The inner loop over one subject's entries: bump the subject's counter and append the
   * record carrying that number. The subject has no counter yet.
   */
  method AppendPlaylist(videos: seq<CatalogVideo>, idCounter: map<string, nat>, subject: string, entries: seq<PlaylistEntry>)
    returns (videos': seq<CatalogVideo>, idCounter': map<string, nat>)
    requires subject !in idCounter
    ensures videos' == videos + PlaylistVideos(subject, entries)
    ensures idCounter' == if entries == [] then idCounter else idCounter[subject := |entries|]
  {
    videos', idCounter' := videos, idCounter;
    for i := 0 to |entries|
      invariant videos' == videos + PlaylistVideos(subject, entries[..i])
      invariant (if subject in idCounter' then idCounter'[subject] else 0) == i
      invariant idCounter' == if i == 0 then idCounter else idCounter[subject := i]
    {
      assert entries[..i + 1][..i] == entries[..i];
      var count := (if subject in idCounter' then idCounter'[subject] else 0) + 1;
      var video := MakeVideo(subject, count, entries[i]);
      PlaylistVideosSnoc(subject, entries, i);
      idCounter' := idCounter'[subject := count];
      videos' := videos' + [video];
    }
    assert entries[..|entries|] == entries;
  }

  /** The script's main loop, over the subjects (the keys of a dictionary, so all distinct). */
  method BuildCatalog(ps: seq<Playlist>) returns (videos: seq<CatalogVideo>)
    requires DistinctSubjects(ps)
    ensures videos == Catalog(ps)
  {
    videos := [];
    var idCounter: map<string, nat> := map[];
    for k := 0 to |ps|
      invariant videos == Catalog(ps[..k])
      invariant forall j :: k <= j < |ps| ==> ps[j].subject !in idCounter
    {
      assert ps[..k + 1][..k] == ps[..k];
      videos, idCounter := AppendPlaylist(videos, idCounter, ps[k].subject, ps[k].entries);
    }
    assert ps[..|ps|] == ps;
  }
}
