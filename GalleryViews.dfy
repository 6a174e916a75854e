// filter_gallery_videos (web/views.py): walks the active videos newest
// first, fills a missing identifier from the stored URL and saves the
// video, and lists only the videos that then have an identifier.

module GalleryViews {
  import opened Common
  import opened YouTube
  import opened Models

  /** One serialised video. */
  datatype VideoRecord = VideoRecord(
    id: nat,
    title: string,
    youtubeId: string,
    description: Option<string>,
    embedUrl: string,
    thumbnailUrl: string)

  /** The fields of a video the view reads, at one moment. */
  datatype VideoState = VideoState(id: nat, title: string, youtubeUrl: Option<string>, youtubeId: string, description: Option<string>)

  function StateOf(v: Video): VideoState
    reads v
  {
    VideoState(v.id, v.title, v.youtubeUrl, v.youtubeId, v.description)
  }

  function States(vs: seq<Video>): (r: seq<VideoState>)
    reads set v | v in vs
    ensures |r| == |vs|
  {
    if vs == [] then [] else States(vs[..|vs| - 1]) + [StateOf(vs[|vs| - 1])]
  }

  /** The identifier a video has after the view: an empty one is filled
      from a non-empty URL, anything else stays. */
  function Backfilled(url: Option<string>, id: string): (r: string)
    ensures id != "" ==> r == id
    ensures id == "" ==> r == Extract(url)
  {
    if id == "" && Given(url) then Extract(url) else id
  }

  /** For every URL that does not end in a newline, the backfill is the one
      the view computes with the extraction as written. */
  lemma BackfilledMatchesAsWritten(url: Option<string>, id: string)
    requires Given(url) && url.value[|url.value| - 1] != '\n'
    ensures Backfilled(url, id) == if id == "" then ExtractAsWritten(url) else id
  {
    FallbackDiffersOnlyOnNewline(url);
  }

  function RecordOf(s: VideoState): VideoRecord {
    VideoRecord(s.id, s.title, s.youtubeId, s.description, EmbedUrl(s.youtubeId), ThumbnailUrl(s.youtubeId))
  }

  /** The records for the videos that have an identifier, in the given order. */
  function GalleryRecords(states: seq<VideoState>): seq<VideoRecord> {
    if states == [] then [] else GalleryRecords(states[..|states| - 1]) + Listed(states[|states| - 1])
  }

  /** `if video.youtube_id:` the video's record, otherwise nothing. */
  function Listed(s: VideoState): seq<VideoRecord> {
    if s.youtubeId != "" then [RecordOf(s)] else []
  }

  /** The gallery lists a record for exactly the videos that have an
      identifier, and every listed record has its embed and thumbnail URLs. */
  lemma {:induction false} GalleryRecordsListed(states: seq<VideoState>)
    ensures |GalleryRecords(states)| <= |states|
    ensures forall x :: x in GalleryRecords(states) <==>
      exists s :: s in states && s.youtubeId != "" && x == RecordOf(s)
    ensures forall x :: x in GalleryRecords(states) ==> x.youtubeId != "" && x.embedUrl != "" && x.thumbnailUrl != ""
  {
    if states != [] {
      var init := states[..|states| - 1];
      var last := states[|states| - 1];
      GalleryRecordsListed(init);
      assert states == init + [last];
      forall x | x in GalleryRecords(states)
        ensures exists s :: s in states && s.youtubeId != "" && x == RecordOf(s)
      {
        if x !in GalleryRecords(init) {
          assert last in states;
        }
      }
    }
  }

  /** The body of the loop for one video: `if not video.youtube_id and
      video.youtube_url`, extract the identifier and save. */
  method BackfillId(video: Video)
    modifies video`youtubeUrl, video`youtubeId
    ensures video.youtubeUrl == old(video.youtubeUrl)
    ensures video.youtubeId == Backfilled(old(video.youtubeUrl), old(video.youtubeId))
  {
    if video.youtubeId == "" && Given(video.youtubeUrl) {
      video.youtubeId := ExtractYouTubeId(video.youtubeUrl);
      video.Save();
    }
  }

  /** The view's loop over the queryset (already filtered to active videos
      and ordered by `-created_at`): each video gets its identifier filled
      and saved, and the response lists the records of the videos that have one. */
  method FilterGalleryVideos(videos: seq<Video>) returns (data: seq<VideoRecord>)
    requires forall i, j :: 0 <= i < j < |videos| ==> videos[i] != videos[j]
    modifies set v | v in videos
    ensures forall k :: 0 <= k < |videos| ==>
      && videos[k].youtubeUrl == old(videos[k].youtubeUrl)
      && videos[k].youtubeId == Backfilled(old(videos[k].youtubeUrl), old(videos[k].youtubeId))
    ensures data == GalleryRecords(States(videos))
  {
    data := [];
    ghost var seen: seq<VideoState> := [];
    var i := 0;
    while i < |videos|
      invariant 0 <= i <= |videos| && |seen| == i
      invariant forall k :: 0 <= k < |videos| ==>
        && videos[k].youtubeUrl == old(videos[k].youtubeUrl)
        && videos[k].youtubeId == if k < i then Backfilled(old(videos[k].youtubeUrl), old(videos[k].youtubeId))
                                  else old(videos[k].youtubeId)
      invariant forall k :: 0 <= k < i ==>
        seen[k] == VideoState(videos[k].id, videos[k].title, old(videos[k].youtubeUrl),
                              Backfilled(old(videos[k].youtubeUrl), old(videos[k].youtubeId)), videos[k].description)
      invariant data == GalleryRecords(seen)
    {
      var video := videos[i];
      assert forall k :: 0 <= k < |videos| && k != i ==> videos[k] != video;
      BackfillId(video);
      var s := StateOf(video);
      GalleryRecordsAppend(seen, s);
      data := data + Listed(s);
      seen := seen + [s];
      i := i + 1;
    }
    StatesAre(videos, seen);
  }

  lemma GalleryRecordsAppend(seen: seq<VideoState>, s: VideoState)
    ensures GalleryRecords(seen + [s]) == GalleryRecords(seen) + Listed(s)
  {
    assert (seen + [s])[..|seen|] == seen;
  }

  /** `States` of a sequence whose elements' states are listed in `ss`. */
  lemma {:induction false} StatesAre(vs: seq<Video>, ss: seq<VideoState>)
    requires |ss| == |vs| && forall k :: 0 <= k < |vs| ==> ss[k] == StateOf(vs[k])
    ensures States(vs) == ss
    decreases |vs|
  {
    if vs != [] {
      StatesAre(vs[..|vs| - 1], ss[..|ss| - 1]);
    }
  }

  /** A video whose identifier the view filled in is listed with an identifier
      of the proper shape, and its embed URL is built from it. */
  lemma BackfilledIdIsValid(url: Option<string>)
    requires Given(url) && Extract(url) != ""
    ensures IsVideoId(Backfilled(url, ""))
    ensures EmbedUrl(Backfilled(url, "")) == EmbedUrlPrefix + Extract(url) + EmbedUrlSuffix
  {
  }
}
