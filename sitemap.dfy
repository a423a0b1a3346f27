/** The sitemap: four fixed pages, then one entry per blog post. The list
    of posts is an input. */
module Sitemap {

  const BaseUrl := "https://canbekiroglu-portfolio.vercel.app"

  datatype ChangeFrequency = Yearly | Monthly | Weekly

  /** `lastModified`: the time the sitemap is built, or the post's date
      as `new Date(post.date)` reads it. */
  datatype Modified = BuildTime | PostDate(date: string)

  datatype Entry = Entry(url: string, lastModified: Modified, changeFrequency: ChangeFrequency, priority: real)

  /** The fields of a post the sitemap reads. */
  datatype PostMeta = PostMeta(slug: string, date: string)

  /** `blogUrls`: one entry per post. */
  function BlogEntry(post: PostMeta): (r: Entry)
    ensures r.changeFrequency == Monthly && r.priority == 0.7
  {
    Entry(BaseUrl + "/blog/" + post.slug, PostDate(post.date), Monthly, 0.7)
  }

  /** `posts.map(...)`. */
  function BlogEntries(posts: seq<PostMeta>): (r: seq<Entry>)
    ensures |r| == |posts|
    ensures forall k :: 0 <= k < |posts| ==> r[k] == BlogEntry(posts[k])
  {
    if posts == [] then [] else [BlogEntry(posts[0])] + BlogEntries(posts[1..])
  }

  const StaticEntries: seq<Entry> := [
    Entry(BaseUrl, BuildTime, Yearly, 1.0),
    Entry(BaseUrl + "/about", BuildTime, Monthly, 0.8),
    Entry(BaseUrl + "/blog", BuildTime, Weekly, 0.9),
    Entry(BaseUrl + "/contact", BuildTime, Monthly, 0.8)
  ]

  function Entries(posts: seq<PostMeta>): (r: seq<Entry>)
    ensures |r| == 4 + |posts|
  {
    StaticEntries + BlogEntries(posts)
  }

  /** The four fixed pages come first: home, about, blog and contact, with
      priorities 1, 0.8, 0.9 and 0.8. */
  lemma StaticPagesFirst(posts: seq<PostMeta>)
    ensures Entries(posts)[..4] == StaticEntries
    ensures var e := Entries(posts);
      e[0].url == BaseUrl && e[1].url == BaseUrl + "/about"
      && e[2].url == BaseUrl + "/blog" && e[3].url == BaseUrl + "/contact"
      && e[0].priority == 1.0 && e[1].priority == 0.8 && e[2].priority == 0.9 && e[3].priority == 0.8
  {
  }

  /** Post k's entry is at position 4 + k: the posts keep their order,
      each under base + "/blog/" + slug, monthly, with priority 0.7. */
  lemma PostEntries(posts: seq<PostMeta>, k: nat)
    requires k < |posts|
    ensures var e := Entries(posts)[4 + k];
      e == BlogEntry(posts[k])
      && e.url == BaseUrl + "/blog/" + posts[k].slug && e.changeFrequency == Monthly && e.priority == 0.7
  {
  }

  /** The blog entries of two lists of posts, one after the other, are the
      entries of each list in turn: a new post only adds its own entry. */
  lemma {:induction false} BlogEntriesAppend(a: seq<PostMeta>, b: seq<PostMeta>)
    ensures BlogEntries(a + b) == BlogEntries(a) + BlogEntries(b)
  {
    if a != [] {
      assert (a + b)[1..] == a[1..] + b;
      BlogEntriesAppend(a[1..], b);
    } else {
      assert a + b == b;
    }
  }
}
