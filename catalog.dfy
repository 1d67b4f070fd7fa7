/** The catalog filter of the Projects and Blog sections: the tag vocabulary
    shown as filter buttons, the toggling of a selected tag, and the AND
    filters that decide which items are listed. */
module Catalog {
  import opened Seqs
  import opened Order
  import opened Text

  datatype Option<T> = None | Some(value: T)

  datatype MediaKind = Image | Video

  /** A project's media; `src` is null in every catalog entry of the site. */
  datatype Media = Media(kind: MediaKind, src: Option<string>)

  /** A project card. `desc` and `media` are payload the filter never reads. */
  datatype Project = Project(id: int, title: string, desc: string, tags: seq<string>, media: Media)

  /** A blog post. `date` and `minutes` are payload the filter never reads. */
  datatype Post = Post(id: int, title: string, date: string, tags: seq<string>, excerpt: string, minutes: int)

  // ---------------------------------------------------------------------
  // Tag vocabulary: the distinct tags of all items, deduplicated through a
  // Set and sorted with the default string order.

  function Vocabulary(allTags: seq<string>): seq<string> {
    Sort(Dedup(allTags))
  }

  /** Every tag of every project, in catalog order. */
  function FlatProjectTags(items: seq<Project>): seq<string> {
    FlatMap(items, (p: Project) => p.tags)
  }

  /** Every tag of every post, in catalog order. */
  function FlatPostTags(posts: seq<Post>): seq<string> {
    FlatMap(posts, (p: Post) => p.tags)
  }

  /** The filter buttons of the Projects section. */
  function ProjectTags(items: seq<Project>): seq<string> {
    Vocabulary(FlatProjectTags(items))
  }

  /** The filter buttons of the Blog section. */
  function PostTags(posts: seq<Post>): seq<string> {
    Vocabulary(FlatPostTags(posts))
  }

  /** The distinct tags in strictly ascending order, hence without duplicates. */
  lemma VocabularySpec(allTags: seq<string>)
    ensures Ascending(Vocabulary(allTags))
    ensures NoDup(Vocabulary(allTags))
    ensures forall t :: t in Vocabulary(allTags) <==> t in allTags
  {
    DedupSpec(allTags);
    SortSpec(Dedup(allTags));
    var v := Vocabulary(allTags);
    assert forall t :: t in v <==> t in multiset(Dedup(allTags));
    forall i, j | 0 <= i < j < |v| ensures v[i] != v[j] {
      LessIrreflexive(v[i]);
    }
  }

  /** A tag is a Projects button iff some project carries it; the buttons are
      strictly ascending, and they are the only ascending sequence with these
      members. */
  lemma ProjectTagsSpec(items: seq<Project>, other: seq<string>)
    ensures Ascending(ProjectTags(items)) && NoDup(ProjectTags(items))
    ensures forall t :: t in ProjectTags(items) <==> exists i :: 0 <= i < |items| && t in items[i].tags
    ensures Ascending(other) && (forall t :: t in other <==> t in ProjectTags(items)) ==>
            other == ProjectTags(items)
  {
    var f := (p: Project) => p.tags;
    VocabularySpec(FlatMap(items, f));
    forall t ensures t in ProjectTags(items) <==> exists i :: 0 <= i < |items| && t in items[i].tags {
      FlatMapMembers(items, f, t);
    }
    if Ascending(other) && (forall t :: t in other <==> t in ProjectTags(items)) {
      AscendingUnique(other, ProjectTags(items));
    }
  }

  /** The same for the Blog buttons. */
  lemma PostTagsSpec(posts: seq<Post>, other: seq<string>)
    ensures Ascending(PostTags(posts)) && NoDup(PostTags(posts))
    ensures forall t :: t in PostTags(posts) <==> exists i :: 0 <= i < |posts| && t in posts[i].tags
    ensures Ascending(other) && (forall t :: t in other <==> t in PostTags(posts)) ==>
            other == PostTags(posts)
  {
    var f := (p: Post) => p.tags;
    VocabularySpec(FlatMap(posts, f));
    forall t ensures t in PostTags(posts) <==> exists i :: 0 <= i < |posts| && t in posts[i].tags {
      FlatMapMembers(posts, f, t);
    }
    if Ascending(other) && (forall t :: t in other <==> t in PostTags(posts)) {
      AscendingUnique(other, PostTags(posts));
    }
  }

  // ---------------------------------------------------------------------
  // Toggle: a selected tag is filtered out of the selection array, an
  // unselected one is appended to it.

  function NotTag(tag: string): string -> bool {
    (t: string) => t != tag
  }

  function Toggle(cur: seq<string>, tag: string): seq<string> {
    if tag in cur then Filter(cur, NotTag(tag)) else cur + [tag]
  }

  /** An absent tag is appended; a present one has every occurrence removed,
      every other element keeping its place and multiplicity. Either way the
      tag's membership flips and no other tag's changes. */
  lemma ToggleSpec(cur: seq<string>, tag: string)
    ensures tag !in cur ==> Toggle(cur, tag) == cur + [tag]
    ensures tag in cur ==> IsSubseq(Toggle(cur, tag), cur)
    ensures tag in cur ==> forall x :: multiset(Toggle(cur, tag))[x] ==
                                       if x == tag then 0 else multiset(cur)[x]
    ensures tag in Toggle(cur, tag) <==> tag !in cur
    ensures forall x :: x != tag ==> (x in Toggle(cur, tag) <==> x in cur)
  {
    FilterMembers(cur, NotTag(tag));
    FilterIsSubseq(cur, NotTag(tag));
    forall x {
      FilterCount(cur, NotTag(tag), x);
    }
  }

  /** A selection without duplicates keeps none after a toggle. */
  lemma ToggleNoDup(cur: seq<string>, tag: string)
    requires NoDup(cur)
    ensures NoDup(Toggle(cur, tag))
  {
    if tag in cur {
      FilterNoDup(cur, NotTag(tag));
    }
  }

  /** Toggling twice restores which tags are selected. */
  lemma ToggleTwiceMembers(cur: seq<string>, tag: string)
    ensures forall x :: x in Toggle(Toggle(cur, tag), tag) <==> x in cur
  {
    ToggleSpec(cur, tag);
    ToggleSpec(Toggle(cur, tag), tag);
  }

  /** Toggling a tag on and off again restores the exact selection. */
  lemma ToggleTwiceAbsent(cur: seq<string>, tag: string)
    requires tag !in cur
    ensures Toggle(Toggle(cur, tag), tag) == cur
  {
    assert tag in cur + [tag];
    FilterAppend(cur, [tag], NotTag(tag));
    FilterKeepsAll(cur, NotTag(tag));
    assert Filter([tag], NotTag(tag)) == [];
  }

  /** Toggling a selected tag off and on again moves it to the end: the
      other tags keep their order and the tag comes back last. */
  lemma ToggleTwicePresent(cur: seq<string>, tag: string)
    requires NoDup(cur) && tag in cur
    ensures Toggle(Toggle(cur, tag), tag) == Filter(cur, NotTag(tag)) + [tag]
  {
    FilterMembers(cur, NotTag(tag));
  }

  /** In a duplicate-free selection, removing a selected tag takes away
      exactly one element. */
  lemma {:induction false} RemoveOne(cur: seq<string>, tag: string)
    requires NoDup(cur) && tag in cur
    ensures |Filter(cur, NotTag(tag))| == |cur| - 1
  {
    assert NoDup(cur[1..]);
    if cur[0] == tag {
      assert tag !in cur[1..];
      FilterKeepsAll(cur[1..], NotTag(tag));
    } else {
      assert tag in cur[1..];
      RemoveOne(cur[1..], tag);
    }
  }

  /** On a duplicate-free selection a toggle adds or removes exactly one tag. */
  lemma ToggleLength(cur: seq<string>, tag: string)
    requires NoDup(cur)
    ensures |Toggle(cur, tag)| == if tag in cur then |cur| - 1 else |cur| + 1
  {
    if tag in cur {
      RemoveOne(cur, tag);
    }
  }

  /** For example, toggling "IoT" twice in ["IoT", "ML"] gives ["ML", "IoT"]. */
  lemma ToggleTwiceReorders()
    ensures Toggle(Toggle(["IoT", "ML"], "IoT"), "IoT") == ["ML", "IoT"]
  {
    assert "IoT" in ["IoT", "ML"];
    assert Toggle(["IoT", "ML"], "IoT") == ["ML"];
    assert "IoT" !in ["ML"];
  }

  // ---------------------------------------------------------------------
  // AND condition: every selected tag is among the item's tags.

  predicate HasAllTags(tags: seq<string>, selected: seq<string>) {
    forall i :: 0 <= i < |selected| ==> selected[i] in tags
  }

  /** Whether an item has every selected tag depends only on which tags are
      selected, and wanting more tags can only turn a match into a miss. */
  lemma HasAllTagsMonotone(tags: seq<string>, fewer: seq<string>, more: seq<string>)
    requires forall t :: t in fewer ==> t in more
    ensures HasAllTags(tags, more) ==> HasAllTags(tags, fewer)
  {
    if HasAllTags(tags, more) {
      forall i | 0 <= i < |fewer| ensures fewer[i] in tags {
        assert fewer[i] in more;
        var j :| 0 <= j < |more| && more[j] == fewer[i];
      }
    }
  }

  // ---------------------------------------------------------------------
  // Projects: with no tag selected the catalog itself is returned; otherwise
  // the projects carrying every selected tag.

  function MatchesAll(selected: seq<string>): Project -> bool {
    (p: Project) => HasAllTags(p.tags, selected)
  }

  function FilterProjects(items: seq<Project>, selected: seq<string>): seq<Project> {
    if |selected| == 0 then items else Filter(items, MatchesAll(selected))
  }

  /** With nothing selected the catalog is returned unchanged. Otherwise the
      result keeps exactly the projects carrying every selected tag, in
      catalog order and with their multiplicity. */
  lemma FilterProjectsSpec(items: seq<Project>, selected: seq<string>)
    ensures selected == [] ==> FilterProjects(items, selected) == items
    ensures IsSubseq(FilterProjects(items, selected), items)
    ensures forall p :: p in FilterProjects(items, selected) <==>
                        p in items && HasAllTags(p.tags, selected)
    ensures forall p :: multiset(FilterProjects(items, selected))[p] ==
                        if HasAllTags(p.tags, selected) then multiset(items)[p] else 0
  {
    FilterProjectsShortcut(items, selected);
    FilterIsSubseq(items, MatchesAll(selected));
    FilterMembers(items, MatchesAll(selected));
    forall p {
      FilterCount(items, MatchesAll(selected), p);
    }
  }

  /** The empty-selection shortcut returns what the filter itself would. */
  lemma FilterProjectsShortcut(items: seq<Project>, selected: seq<string>)
    ensures FilterProjects(items, selected) == Filter(items, MatchesAll(selected))
  {
    if |selected| == 0 {
      FilterKeepsAll(items, MatchesAll(selected));
    }
  }

  /** The order of the selection, and repeated entries in it, do not matter. */
  lemma FilterProjectsBySet(items: seq<Project>, s1: seq<string>, s2: seq<string>)
    requires forall t :: t in s1 <==> t in s2
    ensures FilterProjects(items, s1) == FilterProjects(items, s2)
  {
    FilterProjectsShortcut(items, s1);
    FilterProjectsShortcut(items, s2);
    forall p | p in items ensures MatchesAll(s1)(p) <==> MatchesAll(s2)(p) {
      HasAllTagsMonotone(p.tags, s1, s2);
      HasAllTagsMonotone(p.tags, s2, s1);
    }
    FilterCongruent(items, MatchesAll(s1), MatchesAll(s2));
  }

  /** Selecting more tags narrows the result to a subsequence of it. */
  lemma FilterProjectsMonotone(items: seq<Project>, fewer: seq<string>, more: seq<string>)
    requires forall t :: t in fewer ==> t in more
    ensures IsSubseq(FilterProjects(items, more), FilterProjects(items, fewer))
    ensures |FilterProjects(items, more)| <= |FilterProjects(items, fewer)|
  {
    FilterProjectsShortcut(items, fewer);
    FilterProjectsShortcut(items, more);
    forall p | p in items && MatchesAll(more)(p) ensures MatchesAll(fewer)(p) {
      HasAllTagsMonotone(p.tags, fewer, more);
    }
    FilterNarrower(items, MatchesAll(fewer), MatchesAll(more));
    SubseqLength(FilterProjects(items, more), FilterProjects(items, fewer));
  }

  /** Toggling a tag on narrows the projects shown; toggling it off widens them. */
  lemma FilterProjectsToggle(items: seq<Project>, selected: seq<string>, tag: string)
    ensures tag !in selected ==>
            IsSubseq(FilterProjects(items, Toggle(selected, tag)), FilterProjects(items, selected))
    ensures tag in selected ==>
            IsSubseq(FilterProjects(items, selected), FilterProjects(items, Toggle(selected, tag)))
  {
    ToggleSpec(selected, tag);
    if tag in selected {
      FilterProjectsMonotone(items, Toggle(selected, tag), selected);
    } else {
      FilterProjectsMonotone(items, selected, Toggle(selected, tag));
    }
  }

  /** Selecting a tag that no project carries empties the list. */
  lemma FilterProjectsUnknownTag(items: seq<Project>, selected: seq<string>, tag: string)
    requires tag in selected
    requires forall i :: 0 <= i < |items| ==> tag !in items[i].tags
    ensures FilterProjects(items, selected) == []
  {
    FilterProjectsShortcut(items, selected);
    forall p | p in items ensures !MatchesAll(selected)(p) {
      var j :| 0 <= j < |selected| && selected[j] == tag;
    }
    FilterKeepsNone(items, MatchesAll(selected));
  }

  // ---------------------------------------------------------------------
  // Blog: a post is kept when its title and excerpt, joined by a space and
  // lower-cased, contain the lower-cased query, and, if any tag is selected,
  // it carries every selected tag.

  function SearchText(p: Post): string {
    p.title + " " + p.excerpt
  }

  predicate PostMatches(p: Post, q: string, active: seq<string>) {
    var matchText := Contains(Lower(SearchText(p)), Lower(q));
    var matchTags := if |active| > 0 then HasAllTags(p.tags, active) else true;
    matchText && matchTags
  }

  function PostMatcher(q: string, active: seq<string>): Post -> bool {
    (p: Post) => PostMatches(p, q, active)
  }

  function FilterPosts(posts: seq<Post>, q: string, active: seq<string>): seq<Post> {
    Filter(posts, PostMatcher(q, active))
  }

  /** A post is listed iff its lower-cased title and excerpt contain the
      lower-cased query and it carries every selected tag; posts keep their
      order and multiplicity. */
  lemma FilterPostsSpec(posts: seq<Post>, q: string, active: seq<string>)
    ensures IsSubseq(FilterPosts(posts, q, active), posts)
    ensures forall p :: p in FilterPosts(posts, q, active) <==>
                        p in posts && Contains(Lower(p.title + " " + p.excerpt), Lower(q)) &&
                        HasAllTags(p.tags, active)
    ensures forall p :: multiset(FilterPosts(posts, q, active))[p] ==
                        if PostMatches(p, q, active) then multiset(posts)[p] else 0
  {
    FilterIsSubseq(posts, PostMatcher(q, active));
    FilterMembers(posts, PostMatcher(q, active));
    forall p {
      FilterCount(posts, PostMatcher(q, active), p);
    }
  }

  /** An empty query with no tag selected lists every post, in order. */
  lemma FilterPostsUnfiltered(posts: seq<Post>)
    ensures FilterPosts(posts, "", []) == posts
  {
    forall p | p in posts ensures PostMatcher("", [])(p) {
      ContainsTrivial(Lower(SearchText(p)));
    }
    FilterKeepsAll(posts, PostMatcher("", []));
  }

  /** Queries that lower-case alike, such as "PID" and "pid", list the same posts. */
  lemma FilterPostsCaseInsensitive(posts: seq<Post>, q1: string, q2: string, active: seq<string>)
    requires Lower(q1) == Lower(q2)
    ensures FilterPosts(posts, q1, active) == FilterPosts(posts, q2, active)
  {
    FilterCongruent(posts, PostMatcher(q1, active), PostMatcher(q2, active));
  }

  /** Typing further characters into the search box narrows the list. */
  lemma FilterPostsQueryNarrows(posts: seq<Post>, q: string, more: string, active: seq<string>)
    ensures IsSubseq(FilterPosts(posts, q + more, active), FilterPosts(posts, q, active))
  {
    forall p | p in posts && PostMatcher(q + more, active)(p) ensures PostMatcher(q, active)(p) {
      LowerAppend(q, more);
      ContainsPrefix(Lower(SearchText(p)), Lower(q), Lower(more));
    }
    FilterNarrower(posts, PostMatcher(q, active), PostMatcher(q + more, active));
  }

  /** Selecting more tags narrows the list for a fixed query. */
  lemma FilterPostsMonotone(posts: seq<Post>, q: string, fewer: seq<string>, more: seq<string>)
    requires forall t :: t in fewer ==> t in more
    ensures IsSubseq(FilterPosts(posts, q, more), FilterPosts(posts, q, fewer))
    ensures |FilterPosts(posts, q, more)| <= |FilterPosts(posts, q, fewer)|
  {
    forall p | p in posts && PostMatcher(q, more)(p) ensures PostMatcher(q, fewer)(p) {
      HasAllTagsMonotone(p.tags, fewer, more);
    }
    FilterNarrower(posts, PostMatcher(q, fewer), PostMatcher(q, more));
    SubseqLength(FilterPosts(posts, q, more), FilterPosts(posts, q, fewer));
  }

  /** Selecting a tag that no post carries empties the list, whatever the query. */
  lemma FilterPostsUnknownTag(posts: seq<Post>, q: string, active: seq<string>, tag: string)
    requires tag in active
    requires forall i :: 0 <= i < |posts| ==> tag !in posts[i].tags
    ensures FilterPosts(posts, q, active) == []
  {
    forall p | p in posts ensures !PostMatcher(q, active)(p) {
      var j :| 0 <= j < |active| && active[j] == tag;
    }
    FilterKeepsNone(posts, PostMatcher(q, active));
  }
}
