/** The blog card: the link to the post, the first three tags, and a
    "+k more" note for the rest. */
module BlogCard {
  import opened Text

  /** `post.tags`, which a post may lack. */
  datatype Tags = NoTags | Tags(list: seq<string>)

  /** The tag row under a card: the tags shown and, when there are more
      than three, the note after them. */
  datatype TagRow = NoRow | Row(shown: seq<string>, more: Note)

  datatype Note = NoNote | Note(text: string)

  /** `+{post.tags.length - 3} more`. */
  function MoreLabel(count: nat): (r: string)
    requires count > 3
  {
    "+" + NatToString(count - 3) + " more"
  }

  /** `post.tags && post.tags.length > 0 && (...)`: no row for missing or
      empty tags; otherwise `slice(0, 3)` and the note when there are more. */
  function TagRowFor(tags: Tags): (r: TagRow)
  {
    if tags.NoTags? || |tags.list| == 0 then NoRow
    else
      var shown := if |tags.list| <= 3 then tags.list else tags.list[..3];
      Row(shown, if |tags.list| > 3 then Note(MoreLabel(|tags.list|)) else NoNote)
  }

  /** A row is shown exactly when there is at least one tag; it holds the
      first tags in their order, at most three of them, and all of them
      when there are three or fewer. */
  lemma TagRowShown(tags: Tags)
    ensures TagRowFor(tags).Row? <==> tags.Tags? && |tags.list| > 0
    ensures TagRowFor(tags).Row? ==>
      var shown := TagRowFor(tags).shown;
      |shown| == (if |tags.list| < 3 then |tags.list| else 3)
      && shown == tags.list[..|shown|]
  {
  }

  /** The note appears exactly when there are more than three tags, and
      counts the ones left out. */
  lemma MoreNote(tags: Tags)
    requires tags.Tags?
    ensures TagRowFor(tags).Row? && TagRowFor(tags).more.Note? <==> |tags.list| > 3
    ensures |tags.list| > 3 ==>
      TagRowFor(tags).more == Note("+" + NatToString(|tags.list| - |TagRowFor(tags).shown|) + " more")
  {
  }

  /** The shown tags and the count in the note account for every tag. */
  lemma MoreNoteCounts(tags: Tags)
    requires tags.Tags? && |tags.list| > 3
    ensures |TagRowFor(tags).shown| + ParseNat(NatToString(|tags.list| - 3)) == |tags.list|
  {
    ParseNatToString(|tags.list| - 3);
  }

  /** `/blog/${post.slug}`. */
  function CardHref(slug: string): (r: string)
    ensures |r| == 6 + |slug| && r[6..] == slug
  {
    "/blog/" + slug
  }
}
