/**
 * The video library page's filter: a free-text search over titles and topics, and a subject
 * tab whose id is the subject lowercased with spaces turned into underscores, or "all".
 */
module VideoLibrary {
  import opened Text
  import opened Schema
  import Seqs

  const AllSubjects := "all"

  /** The title or the topic contains the query, ignoring case. */
  predicate MatchesSearch(v: Video, query: string)
  {
    Contains(LowerStr(v.title), LowerStr(query)) || Contains(LowerStr(v.topic), LowerStr(query))
  }

  /** `subject.toLowerCase().replace(/ /g, "_")`. */
  function SubjectId(subject: string): (id: string)
    ensures |id| == |subject| && ' ' !in id
  {
    ReplaceSpaces(LowerStr(subject))
  }

  predicate MatchesSubject(v: Video, selected: string)
  {
    selected == AllSubjects || SubjectId(v.subject) == selected
  }

  /** `filteredVideos`: the videos passing both tests, in list order. */
  function FilteredVideos(videos: seq<Video>, query: string, selected: string): (r: seq<Video>)
    ensures forall i :: 0 <= i < |videos| ==>
      (videos[i] in r <==> MatchesSearch(videos[i], query) && MatchesSubject(videos[i], selected))
    ensures forall i :: 0 <= i < |r| ==> r[i] in videos
    ensures Seqs.IsSubsequence(r, videos)
  {
    Seqs.Filter(v => MatchesSearch(v, query) && MatchesSubject(v, selected), videos)
  }

  /** An empty query matches every video. */
  lemma EmptyQueryMatches(v: Video)
    ensures MatchesSearch(v, "")
  {
    assert LowerStr("") == "";
    ContainsEmpty(LowerStr(v.title));
  }

  /** With an empty query and the "all" tab, the whole list is shown. */
  lemma EmptyQueryShowsAll(videos: seq<Video>)
    ensures FilteredVideos(videos, "", AllSubjects) == videos
  {
    forall i | 0 <= i < |videos|
      ensures MatchesSearch(videos[i], "")
    {
      EmptyQueryMatches(videos[i]);
    }
    Seqs.FilterAll(v => MatchesSearch(v, "") && MatchesSubject(v, AllSubjects), videos);
  }

  /** The "all" tab imposes no subject constraint: only the search decides. */
  lemma AllTabIsSearchOnly(videos: seq<Video>, query: string)
    ensures forall i :: 0 <= i < |videos| ==>
      (videos[i] in FilteredVideos(videos, query, AllSubjects) <==> MatchesSearch(videos[i], query))
  {
  }

  /** A subject tab shows only videos of that subject, and a tab id with a space shows none. */
  lemma SubjectTabShowsOwnSubject(videos: seq<Video>, query: string, selected: string)
    requires selected != AllSubjects
    ensures forall i :: 0 <= i < |FilteredVideos(videos, query, selected)| ==>
      SubjectId(FilteredVideos(videos, query, selected)[i].subject) == selected
    ensures ' ' in selected ==> FilteredVideos(videos, query, selected) == []
  {
    var r := FilteredVideos(videos, query, selected);
    forall i | 0 <= i < |r|
      ensures SubjectId(r[i].subject) == selected
    {
      var j :| 0 <= j < |videos| && videos[j] == r[i];
    }
  }
}
