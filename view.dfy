/** The view state of the two filterable sections, held in React state and
    changed only by the click and input handlers. Each class holds the
    section's fixed catalog and the state variables; the derived values (the
    filter buttons and the listed items) are functions of them. */
module View {
  import opened Seqs
  import opened Order
  import opened Catalog

  /** What the lightbox shows: the project's media together with its title. */
  datatype Shown = Shown(media: Media, title: string)

  /** The Projects section: `activeTags` and `lightbox`. */
  class ProjectsView {
    const catalog: seq<Project>
    var activeTags: seq<string>
    var lightbox: Option<Shown>

    /** The selection never holds a tag twice. */
    ghost predicate Valid()
      reads this
    {
      NoDup(activeTags)
    }

    /** The filter buttons: the tags the projects carry, each once, ascending. */
    function AllTags(): (r: seq<string>)
      ensures Ascending(r) && NoDup(r)
      ensures forall t :: t in r <==> exists i :: 0 <= i < |catalog| && t in catalog[i].tags
    {
      ProjectTagsSpec(catalog, []);
      ProjectTags(catalog)
    }

    /** The projects listed. */
    function Filtered(): seq<Project>
      reads this
    {
      FilterProjects(catalog, activeTags)
    }

    /** The section mounts with no tag selected and the lightbox closed. */
    constructor (catalog: seq<Project>)
      ensures Valid()
      ensures this.catalog == catalog && activeTags == [] && lightbox == None
      ensures Filtered() == catalog
    {
      this.catalog := catalog;
      activeTags := [];
      lightbox := None;
    }

    /** A tag button: the tag's selection flips, the lightbox is untouched,
        and the list narrows when the tag is added and widens when it is
        removed. */
    method ToggleTag(tag: string)
      requires Valid()
      modifies this
      ensures Valid()
      ensures activeTags == Toggle(old(activeTags), tag)
      ensures lightbox == old(lightbox)
      ensures tag in activeTags <==> tag !in old(activeTags)
      ensures |activeTags| == if tag in old(activeTags) then |old(activeTags)| - 1 else |old(activeTags)| + 1
      ensures tag !in old(activeTags) ==> IsSubseq(Filtered(), old(Filtered()))
      ensures tag in old(activeTags) ==> IsSubseq(old(Filtered()), Filtered())
    {
      ToggleNoDup(activeTags, tag);
      ToggleLength(activeTags, tag);
      ToggleSpec(activeTags, tag);
      FilterProjectsToggle(catalog, activeTags, tag);
      activeTags := Toggle(activeTags, tag);
    }

    /** The "All" button: clears the selection, so the whole catalog is listed. */
    method ShowAll()
      requires Valid()
      modifies this
      ensures Valid()
      ensures activeTags == [] && lightbox == old(lightbox)
      ensures Filtered() == catalog
    {
      activeTags := [];
    }

    /** A project's "Open" button: the lightbox shows that project's media,
        replacing whatever it showed before. */
    method Open(p: Project)
      requires Valid()
      modifies this
      ensures Valid()
      ensures lightbox == Some(Shown(p.media, p.title))
      ensures activeTags == old(activeTags)
    {
      lightbox := Some(Shown(p.media, p.title));
    }

    /** The lightbox's "Close" button. */
    method Close()
      requires Valid()
      modifies this
      ensures Valid()
      ensures lightbox == None
      ensures activeTags == old(activeTags)
    {
      lightbox := None;
    }
  }

  /** The Blog section: the query `q` and the selection `active`. */
  class BlogView {
    const posts: seq<Post>
    var q: string
    var active: seq<string>

    ghost predicate Valid()
      reads this
    {
      NoDup(active)
    }

    /** The filter buttons: the tags the posts carry, each once, ascending. */
    function AllTags(): (r: seq<string>)
      ensures Ascending(r) && NoDup(r)
      ensures forall t :: t in r <==> exists i :: 0 <= i < |posts| && t in posts[i].tags
    {
      PostTagsSpec(posts, []);
      PostTags(posts)
    }

    function Filtered(): seq<Post>
      reads this
    {
      FilterPosts(posts, q, active)
    }

    /** The section mounts with an empty query and no tag selected, so every
        post is listed. */
    constructor (posts: seq<Post>)
      ensures Valid()
      ensures this.posts == posts && q == "" && active == []
      ensures Filtered() == posts
    {
      this.posts := posts;
      q := "";
      active := [];
      FilterPostsUnfiltered(posts);
    }

    /** Typing in the search box replaces the query; the selection stays. */
    method SetQuery(text: string)
      requires Valid()
      modifies this
      ensures Valid()
      ensures q == text && active == old(active)
    {
      q := text;
    }

    method ToggleTag(tag: string)
      requires Valid()
      modifies this
      ensures Valid()
      ensures active == Toggle(old(active), tag)
      ensures q == old(q)
      ensures tag in active <==> tag !in old(active)
      ensures |active| == if tag in old(active) then |old(active)| - 1 else |old(active)| + 1
      ensures tag !in old(active) ==> IsSubseq(Filtered(), old(Filtered()))
      ensures tag in old(active) ==> IsSubseq(old(Filtered()), Filtered())
    {
      ToggleNoDup(active, tag);
      ToggleLength(active, tag);
      ToggleSpec(active, tag);
      if tag in active {
        FilterPostsMonotone(posts, q, Toggle(active, tag), active);
      } else {
        FilterPostsMonotone(posts, q, active, Toggle(active, tag));
      }
      active := Toggle(active, tag);
    }

    /** The "All" button clears the selection only; the query stays. */
    method ShowAll()
      requires Valid()
      modifies this
      ensures Valid()
      ensures active == [] && q == old(q)
    {
      active := [];
    }

    /** The "Reset" button clears both the query and the selection, so every
        post is listed again. */
    method Reset()
      requires Valid()
      modifies this
      ensures Valid()
      ensures q == "" && active == []
      ensures Filtered() == posts
    {
      q := "";
      active := [];
      FilterPostsUnfiltered(posts);
    }
  }
}
