// The model methods of web/models.py that change an instance in place
// before it is persisted (Video.save, Department.save), and the derived
// properties read from an instance.

module Models {
  import opened Common
  import opened Records
  import opened YouTube

  /** A `Video` instance: the fields its methods and the gallery view use.
      The primary key, title and description are never written by them. */
  class Video {
    const id: nat
    const title: string
    var youtubeUrl: Option<string>
    var youtubeId: string
    const description: Option<string>

    constructor (id: nat, title: string, youtubeUrl: Option<string>, youtubeId: string, description: Option<string>)
      ensures this.id == id && this.title == title && this.youtubeUrl == youtubeUrl
      ensures this.youtubeId == youtubeId && this.description == description
    {
      this.id := id;
      this.title := title;
      this.youtubeUrl := youtubeUrl;
      this.youtubeId := youtubeId;
      this.description := description;
    }

    /** Video.save: fill an empty identifier from the URL, or write the
        canonical URL for an identifier given without one; a stored
        identifier is never replaced. Persisting the row is not modelled. */
    method Save()
      modifies this`youtubeUrl, this`youtubeId
      ensures (youtubeUrl, youtubeId) == SavedFields(old(youtubeUrl), old(youtubeId))
      ensures old(youtubeId) != "" ==> youtubeId == old(youtubeId)
    {
      if Given(youtubeUrl) && youtubeId == "" {
        youtubeId := ExtractYouTubeId(youtubeUrl);
      } else if !Given(youtubeUrl) && youtubeId != "" {
        youtubeUrl := Some(CanonicalUrl(youtubeId));
      }
    }

    /** Video.embed_url. */
    function EmbedUrlOf(): (u: string)
      reads this
      ensures u == "" <==> youtubeId == ""
      ensures u != "" ==> u == EmbedUrlPrefix + youtubeId + EmbedUrlSuffix
    {
      EmbedUrl(youtubeId)
    }

    /** Video.thumbnail_url. */
    function ThumbnailUrlOf(): (u: string)
      reads this
      ensures u == "" <==> youtubeId == ""
      ensures u != "" ==> u == ThumbnailPrefix + youtubeId + ThumbnailSuffix
    {
      ThumbnailUrl(youtubeId)
    }
  }

  /** A `Department` instance: the row it holds until it is persisted. */
  class Department {
    var row: DepartmentRec

    constructor (row: DepartmentRec)
      ensures this.row == row
    {
      this.row := row;
    }

    /** Department.save: an empty slug becomes `slugify(name_en)`; a slug
        already set is kept. No other field changes. `slugify` is Django's
        and is left abstract. */
    method Save(slugify: string -> string)
      modifies this`row
      ensures old(row.slug) != "" ==> row == old(row)
      ensures old(row.slug) == "" ==> row == old(row).(slug := slugify(old(row.nameEn)))
    {
      if row.slug == "" {
        row := row.(slug := slugify(row.nameEn));
      }
    }
  }

  /** "ইভেন্ট" and "সংবাদ", the Bengali words for event and news. */
  const EventLabel: string := "\U{987}\U{9AD}\U{9C7}\U{9A8}\U{9CD}\U{99F}"
  const NewsLabel: string := "\U{9B8}\U{982}\U{9AC}\U{9BE}\U{9A6}"

  /** EventAndNews.type_display_bengali: Bengali labels for the two known
      types; any other stored value is shown as it is, since it has no choice
      label. */
  function TypeDisplayBengali(eventType: string): (display: string)
    ensures eventType == "EVENT" ==> display == EventLabel
    ensures eventType == "NEWS" ==> display == NewsLabel
    ensures eventType != "EVENT" && eventType != "NEWS" ==> display == eventType
  {
    if eventType == "EVENT" then EventLabel
    else if eventType == "NEWS" then NewsLabel
    else eventType
  }
}
