/**
 * The article-creation form of the admin panel: its validation schema, the
 * slug the title fills in, the tag list, and the submit procedure that
 * inserts the post, creates the tags it does not know yet and links the
 * post to its tags.
 *
 * The three remote tables the submit writes (`blog_posts`, `tags`,
 * `blog_post_tags`) are held in memory by `Store`; what the remote store
 * decides on its own (whether an insert is refused) is passed in.
 */
module CreatePostForm {
  import opened Wrappers
  import opened JsText
  import opened Slugs
  import opened TagSelection
  import Supabase

  // ---------------------------------------------------------------------------
  // Form values and their schema
  // ---------------------------------------------------------------------------

  datatype FormValues = FormValues(
    title: string, slug: string, excerpt: string,
    mediumUrl: string, featuredImage: string, categoryId: Option<string>)

  datatype FieldError = TitleRequired | SlugRequired | ExcerptRequired | InvalidMediumUrl | InvalidImageUrl
  {
    /** The text the schema attaches to the error, shown under its field. */
    function Message(): (text: string)
      ensures text != ""
    {
      match this
      case TitleRequired => "Title is required"
      case SlugRequired => "Slug is required"
      case ExcerptRequired => "Excerpt is required"
      case InvalidMediumUrl => "Please enter a valid Medium URL"
      case InvalidImageUrl => "Please enter a valid image URL"
    }
  }

  /** Whether the values break the rule behind error `e`; `isUrl` stands for the validator's URL check. */
  predicate Breaks(e: FieldError, v: FormValues, isUrl: string -> bool) {
    match e
    case TitleRequired => v.title == ""
    case SlugRequired => v.slug == ""
    case ExcerptRequired => v.excerpt == ""
    case InvalidMediumUrl => !isUrl(v.mediumUrl)
    case InvalidImageUrl => !isUrl(v.featuredImage)
  }

  /** The schema's fields, in declaration order; the category is optional and has no rule. */
  const SchemaOrder: seq<FieldError> := [TitleRequired, SlugRequired, ExcerptRequired, InvalidMediumUrl, InvalidImageUrl]

  /** The errors among `rules` that `v` breaks, in order. */
  function Broken(rules: seq<FieldError>, v: FormValues, isUrl: string -> bool): (errors: seq<FieldError>)
    ensures forall e :: e in errors <==> e in rules && Breaks(e, v, isUrl)
  {
    if rules == [] then []
    else if Breaks(rules[0], v, isUrl) then [rules[0]] + Broken(rules[1..], v, isUrl)
    else Broken(rules[1..], v, isUrl)
  }

  /** The schema check: one error per failing field, in field order. */
  function Validate(v: FormValues, isUrl: string -> bool): (errors: seq<FieldError>)
    ensures errors == [] <==> v.title != "" && v.slug != "" && v.excerpt != "" && isUrl(v.mediumUrl) && isUrl(v.featuredImage)
  {
    var errors := Broken(SchemaOrder, v, isUrl);
    assert SchemaOrder[0] == TitleRequired && SchemaOrder[1] == SlugRequired && SchemaOrder[2] == ExcerptRequired;
    assert SchemaOrder[3] == InvalidMediumUrl && SchemaOrder[4] == InvalidImageUrl;
    assert errors != [] ==> errors[0] in errors;
    assert errors == [] ==> TitleRequired !in errors && SlugRequired !in errors && ExcerptRequired !in errors;
    assert errors == [] ==> InvalidMediumUrl !in errors && InvalidImageUrl !in errors;
    errors
  }

  /** The messages shown under the fields for the values `v`, one per schema error, in field order. */
  function FieldMessages(v: FormValues, isUrl: string -> bool): (texts: seq<string>)
    ensures |texts| == |Validate(v, isUrl)|
    ensures forall i :: 0 <= i < |texts| ==> texts[i] == Validate(v, isUrl)[i].Message()
  {
    var errors := Validate(v, isUrl);
    seq(|errors|, i requires 0 <= i < |errors| => errors[i].Message())
  }

  /** A field's message is shown exactly when the values break that field's rule. */
  lemma MessageShown(v: FormValues, isUrl: string -> bool, e: FieldError)
    ensures e.Message() in FieldMessages(v, isUrl) <==> Breaks(e, v, isUrl)
  {
    var errors := Validate(v, isUrl);
    var texts := FieldMessages(v, isUrl);
    assert e in SchemaOrder;
    if e.Message() in texts {
      var i :| 0 <= i < |texts| && texts[i] == e.Message();
      assert errors[i].Message() == e.Message();
      assert errors[i] == e;
    }
    if Breaks(e, v, isUrl) {
      var i :| 0 <= i < |errors| && errors[i] == e;
      assert texts[i] == e.Message();
    }
  }

  /** The error of each required text field is reported exactly when that field is empty. */
  lemma ValidateRequiresText(v: FormValues, isUrl: string -> bool)
    ensures TitleRequired in Validate(v, isUrl) <==> v.title == ""
    ensures SlugRequired in Validate(v, isUrl) <==> v.slug == ""
    ensures ExcerptRequired in Validate(v, isUrl) <==> v.excerpt == ""
  {
  }

  /** The error of each URL field is reported exactly when that field is not a URL. */
  lemma ValidateRequiresUrls(v: FormValues, isUrl: string -> bool)
    ensures InvalidMediumUrl in Validate(v, isUrl) <==> !isUrl(v.mediumUrl)
    ensures InvalidImageUrl in Validate(v, isUrl) <==> !isUrl(v.featuredImage)
  {
  }

  /**
   * The slug field after the title changes: a non-empty title overwrites it
   * with the title's slug, an empty title leaves it as it was.
   */
  function SlugAfterTitleChange(title: string, slug: string): (r: string)
    ensures title == "" ==> r == slug
    ensures title != "" ==> IsSlug(r) && r == PostSlug(title)
  {
    if title != "" then PostSlug(title) else slug
  }

  /** The columns of the `blog_posts` insert. */
  datatype PostInsert = PostInsert(
    title: string, slug: string, excerpt: string,
    mediumUrl: string, featuredImage: string, categoryId: Option<string>)

  /** The row inserted for the submitted values; an empty category becomes `null`. */
  function ToInsert(v: FormValues): (p: PostInsert)
    ensures p.title == v.title && p.slug == v.slug && p.excerpt == v.excerpt
    ensures p.mediumUrl == v.mediumUrl && p.featuredImage == v.featuredImage
    ensures p.categoryId.None? <==> !Supabase.Truthy(v.categoryId)
    ensures p.categoryId.Some? ==> p.categoryId == v.categoryId
  {
    PostInsert(v.title, v.slug, v.excerpt, v.mediumUrl, v.featuredImage,
               if Supabase.Truthy(v.categoryId) then v.categoryId else None)
  }

  /** The message shown when the submit fails: the error's own, else a fixed one. */
  function ErrorText(e: Supabase.StoreError): (text: string)
    ensures text != ""
    ensures e.message != "" ==> text == e.message
    ensures e.message == "" ==> text == "Failed to create article"
  {
    if e.message != "" then e.message else "Failed to create article"
  }

  // ---------------------------------------------------------------------------
  // The remote tables
  // ---------------------------------------------------------------------------

  /** A row of `blog_posts` as the submit writes it. */
  datatype StoredPost = StoredPost(id: nat, insert: PostInsert)

  datatype TagRow = TagRow(id: nat, name: string, slug: string)

  datatype PostTag = PostTag(blogPostId: nat, tagId: nat)

  /** The answer to a post insert: the new row's id, or the store's error. */
  datatype InsertOutcome = Inserted(id: nat) | Refused(error: Supabase.StoreError)

  /** `blog_posts`, `tags` and `blog_post_tags`; ids are drawn from `nextId`. */
  class Store {
    var posts: seq<StoredPost>
    var tags: seq<TagRow>
    var postTags: seq<PostTag>
    var nextId: nat

    /** Every id in use is below `nextId`, so `nextId` is always a fresh id. */
    ghost predicate Valid()
      reads this
    {
      && (forall r :: r in posts ==> r.id < nextId)
      && (forall t :: t in tags ==> t.id < nextId)
    }

    constructor ()
      ensures Valid()
      ensures posts == [] && tags == [] && postTags == [] && nextId == 0
    {
      posts, tags, postTags, nextId := [], [], [], 0;
    }

    /** Inserts a post unless the store refuses it with `refusal`. */
    method InsertPost(p: PostInsert, refusal: Option<Supabase.StoreError>) returns (outcome: InsertOutcome)
      requires Valid()
      modifies this
      ensures Valid()
      ensures tags == old(tags) && postTags == old(postTags)
      ensures refusal.Some? ==> outcome == Refused(refusal.value) && posts == old(posts) && nextId == old(nextId)
      ensures refusal.None? ==> && outcome == Inserted(old(nextId))
                                && (forall r :: r in old(posts) ==> r.id != outcome.id)
                                && posts == old(posts) + [StoredPost(old(nextId), p)]
                                && nextId == old(nextId) + 1
    {
      if refusal.Some? {
        outcome := Refused(refusal.value);
      } else {
        outcome := Inserted(nextId);
        posts := posts + [StoredPost(nextId, p)];
        nextId := nextId + 1;
      }
    }

    /** Inserts a tag unless the store refuses it; the outcome is not reported. */
    method InsertTag(name: string, slug: string, refused: bool)
      requires Valid()
      modifies this
      ensures Valid()
      ensures posts == old(posts) && postTags == old(postTags)
      ensures refused ==> tags == old(tags) && nextId == old(nextId)
      ensures !refused ==> tags == old(tags) + [TagRow(old(nextId), name, slug)] && nextId == old(nextId) + 1
    {
      if !refused {
        tags := tags + [TagRow(nextId, name, slug)];
        nextId := nextId + 1;
      }
    }

    /** Inserts all the associations at once, or none of them. */
    method InsertPostTags(links: seq<PostTag>, refused: bool)
      modifies this
      ensures posts == old(posts) && tags == old(tags) && nextId == old(nextId)
      ensures postTags == if refused then old(postTags) else old(postTags) + links
    {
      if !refused {
        postTags := postTags + links;
      }
    }
  }

  // ---------------------------------------------------------------------------
  // What the submit does to the tag tables
  // ---------------------------------------------------------------------------

  /**
   * Some tag of the list loaded at mount has `name`'s name, ignoring case.
   * The loaded list is the component's own copy of the `tags` table, taken
   * when the form opened; it is not derived from `Store.tags`, and the
   * submit does not refresh it.
   */
  predicate HasNameIgnoringCase(loaded: seq<Supabase.Tag>, name: string) {
    loaded != [] && (ToLower(loaded[0].name) == ToLower(name) || HasNameIgnoringCase(loaded[1..], name))
  }

  /** The search finds a match exactly when some loaded tag's name equals `name` up to case. */
  lemma {:induction false} HasNameIgnoringCaseIff(loaded: seq<Supabase.Tag>, name: string)
    ensures HasNameIgnoringCase(loaded, name) <==> exists i :: 0 <= i < |loaded| && ToLower(loaded[i].name) == ToLower(name)
  {
    if loaded != [] {
      HasNameIgnoringCaseIff(loaded[1..], name);
      if exists i :: 0 <= i < |loaded| && ToLower(loaded[i].name) == ToLower(name) {
        var i :| 0 <= i < |loaded| && ToLower(loaded[i].name) == ToLower(name);
        if i > 0 {
          assert loaded[1..][i - 1] == loaded[i];
        }
      }
    }
  }

  /** The `{ name, slug }` record of one tag insert. */
  datatype TagInsert = TagInsert(name: string, slug: string)

  /**
   * The tag inserts the submit issues, in order: one, with the name's tag
   * slug, per selected name that no loaded tag matches ignoring case.
   */
  function TagInserts(names: seq<string>, loaded: seq<Supabase.Tag>): (r: seq<TagInsert>)
    ensures |r| <= |names|
  {
    if names == [] then []
    else
      var prev := TagInserts(names[..|names| - 1], loaded);
      var name := names[|names| - 1];
      if HasNameIgnoringCase(loaded, name) then prev else prev + [TagInsert(name, TagSlug(name))]
  }

  /** Each insert is for a selected name with no case-insensitive match, and carries its tag slug. */
  lemma {:induction false} TagInsertsSound(names: seq<string>, loaded: seq<Supabase.Tag>)
    ensures forall t :: t in TagInserts(names, loaded) ==>
              t.name in names && !HasNameIgnoringCase(loaded, t.name) && t.slug == TagSlug(t.name)
  {
    if names != [] {
      var init := names[..|names| - 1];
      TagInsertsSound(init, loaded);
      assert forall x :: x in init ==> x in names;
    }
  }

  /** Each selected name with no case-insensitive match gets its insert. */
  lemma {:induction false} TagInsertsComplete(names: seq<string>, loaded: seq<Supabase.Tag>, x: string)
    requires x in names && !HasNameIgnoringCase(loaded, x)
    ensures TagInsert(x, TagSlug(x)) in TagInserts(names, loaded)
  {
    var last := names[|names| - 1];
    if x != last {
      assert names == names[..|names| - 1] + [last];
      TagInsertsComplete(names[..|names| - 1], loaded, x);
    }
  }

  /** One more name considered by the loop. */
  lemma TagInsertsStep(names: seq<string>, i: nat, loaded: seq<Supabase.Tag>)
    requires i < |names|
    ensures TagInserts(names[..i + 1], loaded)
         == if HasNameIgnoringCase(loaded, names[i]) then TagInserts(names[..i], loaded)
            else TagInserts(names[..i], loaded) + [TagInsert(names[i], TagSlug(names[i]))]
  {
    assert names[..i + 1][..i] == names[..i];
  }

  /**
   * The rows that `inserts` add to `tags`, given the names whose insert the
   * store refuses: consecutive ids from `firstId`, the inserted name and slug.
   */
  function Created(inserts: seq<TagInsert>, refused: set<string>, firstId: nat): (rows: seq<TagRow>)
    ensures |rows| <= |inserts|
  {
    if inserts == [] then []
    else
      var prev := Created(inserts[..|inserts| - 1], refused, firstId);
      var insert := inserts[|inserts| - 1];
      if insert.name in refused then prev else prev + [TagRow(firstId + |prev|, insert.name, insert.slug)]
  }

  /** The created rows: consecutive ids from `firstId`, each from an insert the store does not refuse. */
  lemma {:induction false} CreatedRows(inserts: seq<TagInsert>, refused: set<string>, firstId: nat)
    ensures forall k :: 0 <= k < |Created(inserts, refused, firstId)| ==> Created(inserts, refused, firstId)[k].id == firstId + k
    ensures forall t :: t in Created(inserts, refused, firstId) ==>
              TagInsert(t.name, t.slug) in inserts && t.name !in refused
  {
    if inserts != [] {
      var init := inserts[..|inserts| - 1];
      CreatedRows(init, refused, firstId);
      assert forall x :: x in init ==> x in inserts;
    }
  }

  /** Every insert the store does not refuse gets its row. */
  lemma {:induction false} CreatedComplete(inserts: seq<TagInsert>, refused: set<string>, firstId: nat, x: TagInsert)
    requires x in inserts && x.name !in refused
    ensures exists t :: t in Created(inserts, refused, firstId) && t.name == x.name && t.slug == x.slug
  {
    var last := inserts[|inserts| - 1];
    var prev := Created(inserts[..|inserts| - 1], refused, firstId);
    var rows := Created(inserts, refused, firstId);
    if x == last {
      assert rows == prev + [TagRow(firstId + |prev|, x.name, x.slug)];
      assert rows[|prev|].name == x.name;
    } else {
      assert inserts == inserts[..|inserts| - 1] + [last];
      CreatedComplete(inserts[..|inserts| - 1], refused, firstId, x);
      var t :| t in prev && t.name == x.name && t.slug == x.slug;
      assert rows == prev || rows == prev + [TagRow(firstId + |prev|, last.name, last.slug)];
      assert t in rows;
    }
  }

  /** One more insert issued by the loop, for a name the store refuses. */
  lemma CreatedStepRefused(inserts: seq<TagInsert>, insert: TagInsert, refused: set<string>, firstId: nat)
    requires insert.name in refused
    ensures Created(inserts + [insert], refused, firstId) == Created(inserts, refused, firstId)
  {
    var longer := inserts + [insert];
    assert longer[..|longer| - 1] == inserts;
  }

  /** One more insert issued by the loop, for a name the store accepts. */
  lemma CreatedStepAccepted(inserts: seq<TagInsert>, insert: TagInsert, refused: set<string>, firstId: nat)
    requires insert.name !in refused
    ensures Created(inserts + [insert], refused, firstId)
         == Created(inserts, refused, firstId) + [TagRow(firstId + |Created(inserts, refused, firstId)|, insert.name, insert.slug)]
  {
    var longer := inserts + [insert];
    assert longer[..|longer| - 1] == inserts && longer[|longer| - 1] == insert;
  }

  /**
   * The table after one more insert: unchanged when the store refuses the
   * name, otherwise one row more with the next id.
   */
  lemma CreatedStep(base: seq<TagRow>, inserts: seq<TagInsert>, insert: TagInsert, refused: set<string>, firstId: nat,
                    tags: seq<TagRow>, nextId: nat, tags': seq<TagRow>, nextId': nat)
    requires tags == base + Created(inserts, refused, firstId) && nextId == firstId + |Created(inserts, refused, firstId)|
    requires insert.name in refused ==> tags' == tags && nextId' == nextId
    requires insert.name !in refused ==> tags' == tags + [TagRow(nextId, insert.name, insert.slug)] && nextId' == nextId + 1
    ensures tags' == base + Created(inserts + [insert], refused, firstId)
    ensures nextId' == firstId + |Created(inserts + [insert], refused, firstId)|
  {
    if insert.name in refused {
      CreatedStepRefused(inserts, insert, refused, firstId);
    } else {
      CreatedStepAccepted(inserts, insert, refused, firstId);
      var row := TagRow(nextId, insert.name, insert.slug);
      assert (base + Created(inserts, refused, firstId)) + [row] == base + (Created(inserts, refused, firstId) + [row]);
    }
  }

  /** The re-fetch: the rows whose name is exactly one of `names`, in table order. */
  function Matching(rows: seq<TagRow>, names: seq<string>): (r: seq<TagRow>)
    ensures |r| <= |rows|
    ensures forall t :: t in r <==> t in rows && t.name in names
    ensures forall t :: multiset(r)[t] == if t.name in names then multiset(rows)[t] else 0
  {
    if rows == [] then []
    else
      assert rows == [rows[0]] + rows[1..];
      if rows[0].name in names then [rows[0]] + Matching(rows[1..], names)
      else Matching(rows[1..], names)
  }

  /** One association of the post with each fetched tag. */
  function Links(postId: nat, rows: seq<TagRow>): (links: seq<PostTag>)
    ensures |links| == |rows|
    ensures forall k :: 0 <= k < |rows| ==> links[k] == PostTag(postId, rows[k].id)
  {
    seq(|rows|, k requires 0 <= k < |rows| => PostTag(postId, rows[k].id))
  }

  /** The tag table after the submit's insert loop. */
  function TagsAfterInserts(before: seq<TagRow>, selected: seq<string>, loaded: seq<Supabase.Tag>,
                            refused: set<string>, firstId: nat): seq<TagRow>
  {
    before + Created(TagInserts(selected, loaded), refused, firstId)
  }

  /**
   * A selected name that no loaded tag matches, even ignoring case, and that
   * the store does not refuse, gets a new row with its tag slug and a fresh
   * id, and is linked to the post.
   */
  lemma NewNameLinked(before: seq<TagRow>, selected: seq<string>, loaded: seq<Supabase.Tag>,
                      refused: set<string>, firstId: nat, x: string)
    requires x in selected && !HasNameIgnoringCase(loaded, x) && x !in refused
    ensures exists t :: t in Matching(TagsAfterInserts(before, selected, loaded, refused, firstId), selected)
                     && t.name == x && t.slug == TagSlug(x) && t.id >= firstId
  {
    var inserts := TagInserts(selected, loaded);
    TagInsertsComplete(selected, loaded, x);
    CreatedComplete(inserts, refused, firstId, TagInsert(x, TagSlug(x)));
    var rows := Created(inserts, refused, firstId);
    CreatedRows(inserts, refused, firstId);
    var t :| t in rows && t.name == x && t.slug == TagSlug(x);
    var k :| 0 <= k < |rows| && rows[k] == t;
    assert t in TagsAfterInserts(before, selected, loaded, refused, firstId);
  }

  /** Rows with consecutive ids occur once each. */
  lemma {:induction false} ConsecutiveIdsOnce(rows: seq<TagRow>, firstId: nat)
    requires forall k :: 0 <= k < |rows| ==> rows[k].id == firstId + k
    ensures forall t :: t in rows ==> multiset(rows)[t] == 1
  {
    if rows != [] {
      assert rows == [rows[0]] + rows[1..];
      ConsecutiveIdsOnce(rows[1..], firstId + 1);
      assert rows[0] !in rows[1..];
    }
  }

  /**
   * When every earlier row's id is below `firstId`, each row the insert
   * loop creates comes back from the re-fetch exactly once, so the post
   * gets exactly one association with it.
   */
  lemma CreatedRowsFetchedOnce(before: seq<TagRow>, selected: seq<string>, loaded: seq<Supabase.Tag>,
                               refused: set<string>, firstId: nat)
    requires forall r :: r in before ==> r.id < firstId
    ensures forall t :: t in Created(TagInserts(selected, loaded), refused, firstId) ==>
              multiset(Matching(TagsAfterInserts(before, selected, loaded, refused, firstId), selected))[t] == 1
  {
    var inserts := TagInserts(selected, loaded);
    var rows := Created(inserts, refused, firstId);
    CreatedRows(inserts, refused, firstId);
    TagInsertsSound(selected, loaded);
    ConsecutiveIdsOnce(rows, firstId);
    forall t | t in rows
      ensures multiset(Matching(before + rows, selected))[t] == 1
    {
      var k :| 0 <= k < |rows| && rows[k] == t;
      assert TagInsert(t.name, t.slug) in inserts;
      assert t !in before;
      assert multiset(before + rows)[t] == multiset(before)[t] + multiset(rows)[t];
    }
  }

  /**
   * A selected name that a loaded tag matches only up to case gets no insert;
   * when the table holds no row with exactly that name, it is not linked.
   */
  lemma CaseOnlyMatchNotLinked(before: seq<TagRow>, selected: seq<string>, loaded: seq<Supabase.Tag>,
                               refused: set<string>, firstId: nat, x: string)
    requires HasNameIgnoringCase(loaded, x)
    requires forall t :: t in before ==> t.name != x
    ensures forall t :: t in TagInserts(selected, loaded) ==> t.name != x
    ensures forall t :: t in Matching(TagsAfterInserts(before, selected, loaded, refused, firstId), selected)
                     ==> t.name != x
  {
    TagInsertsSound(selected, loaded);
    CreatedRows(TagInserts(selected, loaded), refused, firstId);
  }

  /** Only selected names are linked, and no name the store refused gets a new row. */
  lemma LinkedNamesSelected(before: seq<TagRow>, selected: seq<string>, loaded: seq<Supabase.Tag>,
                            refused: set<string>, firstId: nat, x: string)
    requires x in refused
    requires forall t :: t in before ==> t.name != x
    ensures forall t :: t in Matching(TagsAfterInserts(before, selected, loaded, refused, firstId), selected)
                     ==> t.name in selected && t.name != x
  {
    CreatedRows(TagInserts(selected, loaded), refused, firstId);
  }

  /**
   * One round of the submit's loop: unless a tag loaded at mount has `name`'s
   * name ignoring case, an insert of `name` with its tag slug is issued; the
   * store adds the row unless it refuses that name.
   */
  method InsertIfMissing(store: Store, name: string, loaded: seq<Supabase.Tag>, refused: set<string>)
    returns (insert: Option<TagInsert>)
    requires store.Valid()
    modifies store
    ensures store.Valid()
    ensures insert.None? <==> HasNameIgnoringCase(loaded, name)
    ensures insert.Some? ==> insert.value == TagInsert(name, TagSlug(name))
    ensures store.posts == old(store.posts) && store.postTags == old(store.postTags)
    ensures insert.None? || insert.value.name in refused ==> store.tags == old(store.tags) && store.nextId == old(store.nextId)
    ensures insert.Some? && insert.value.name !in refused ==>
              && store.tags == old(store.tags) + [TagRow(old(store.nextId), insert.value.name, insert.value.slug)]
              && store.nextId == old(store.nextId) + 1
  {
    if HasNameIgnoringCase(loaded, name) {
      insert := None;
    } else {
      var t := TagInsert(name, TagSlug(name));
      store.InsertTag(t.name, t.slug, t.name in refused);
      insert := Some(t);
    }
  }

  /**
   * The submit's loop over the selected names: a tag insert, with the name's
   * tag slug, for each name that no tag loaded at mount matches ignoring case.
   */
  method CreateMissingTags(store: Store, names: seq<string>, loaded: seq<Supabase.Tag>, refused: set<string>)
    returns (tagInserts: seq<TagInsert>)
    requires store.Valid()
    modifies store
    ensures store.Valid()
    ensures tagInserts == TagInserts(names, loaded)
    ensures store.tags == TagsAfterInserts(old(store.tags), names, loaded, refused, old(store.nextId))
    ensures store.nextId == old(store.nextId) + |Created(TagInserts(names, loaded), refused, old(store.nextId))|
    ensures store.posts == old(store.posts) && store.postTags == old(store.postTags)
  {
    tagInserts := [];
    for i := 0 to |names|
      invariant store.Valid()
      invariant tagInserts == TagInserts(names[..i], loaded)
      invariant store.tags == old(store.tags) + Created(tagInserts, refused, old(store.nextId))
      invariant store.nextId == old(store.nextId) + |Created(tagInserts, refused, old(store.nextId))|
      invariant store.posts == old(store.posts) && store.postTags == old(store.postTags)
    {
      TagInsertsStep(names, i, loaded);
      ghost var tags, nextId := store.tags, store.nextId;
      var insert := InsertIfMissing(store, names[i], loaded, refused);
      if insert.Some? {
        CreatedStep(old(store.tags), tagInserts, insert.value, refused, old(store.nextId), tags, nextId, store.tags, store.nextId);
        tagInserts := tagInserts + [insert.value];
      }
    }
    assert names[..|names|] == names;
  }

  /**
   * The submit's tag work once the post `postId` exists: the missing tags
   * are inserted, the tags named exactly as a selected name are re-fetched
   * and the post is linked to each of them.
   */
  method ReconcileTags(store: Store, postId: nat, names: seq<string>, loaded: seq<Supabase.Tag>,
                       answers: StoreAnswers)
    returns (tagInserts: seq<TagInsert>)
    requires store.Valid()
    modifies store
    ensures store.Valid()
    ensures store.posts == old(store.posts)
    ensures tagInserts == TagInserts(names, loaded)
    ensures store.tags == TagsAfterInserts(old(store.tags), names, loaded, answers.refusedTags, old(store.nextId))
    ensures store.nextId == old(store.nextId) + |Created(TagInserts(names, loaded), answers.refusedTags, old(store.nextId))|
    ensures store.postTags == if answers.refetchFails || answers.linksRefused then old(store.postTags)
                              else old(store.postTags) + Links(postId, Matching(store.tags, names))
  {
    tagInserts := CreateMissingTags(store, names, loaded, answers.refusedTags);
    if !answers.refetchFails {
      var fetched := Matching(store.tags, names);
      store.InsertPostTags(Links(postId, fetched), answers.linksRefused);
    }
  }

  /**
   * The tables after a submit of `data` with the selected `names` and the
   * tags `loaded` at mount, from posts `posts0`, tags `tags0`, associations
   * `postTags0` and next id `nextId0`: a refused post insert leaves all of
   * them alone; otherwise the post gets id `nextId0`, and when tags are
   * selected the missing ones are inserted and the post is linked to the
   * re-fetched ones. The next id moves past every row created.
   */
  ghost predicate Stored(store: Store, posts0: seq<StoredPost>, tags0: seq<TagRow>, postTags0: seq<PostTag>, nextId0: nat,
                         data: FormValues, names: seq<string>, loaded: seq<Supabase.Tag>, answers: StoreAnswers)
    reads store
  {
    if answers.postRefusal.Some? then
      store.posts == posts0 && store.tags == tags0 && store.postTags == postTags0 && store.nextId == nextId0
    else
      && store.posts == posts0 + [StoredPost(nextId0, ToInsert(data))]
      && (names == [] ==> store.tags == tags0 && store.postTags == postTags0 && store.nextId == nextId0 + 1)
      && (names != [] ==>
            && store.tags == TagsAfterInserts(tags0, names, loaded, answers.refusedTags, nextId0 + 1)
            && store.nextId == nextId0 + 1 + |Created(TagInserts(names, loaded), answers.refusedTags, nextId0 + 1)|
            && store.postTags == if answers.refetchFails || answers.linksRefused then postTags0
                                 else postTags0 + Links(nextId0, Matching(store.tags, names)))
  }

  /**
   * The store side of the submit: the post insert, then, when it succeeds
   * and tags are selected, the tag work.
   */
  method StoreSubmission(store: Store, data: FormValues, names: seq<string>, loaded: seq<Supabase.Tag>,
                         answers: StoreAnswers)
    returns (outcome: InsertOutcome, tagInserts: seq<TagInsert>)
    requires store.Valid()
    modifies store
    ensures store.Valid()
    ensures Stored(store, old(store.posts), old(store.tags), old(store.postTags), old(store.nextId),
                   data, names, loaded, answers)
    ensures answers.postRefusal.Some? ==> outcome == Refused(answers.postRefusal.value) && tagInserts == []
    ensures answers.postRefusal.None? ==> outcome == Inserted(old(store.nextId))
    ensures answers.postRefusal.None? && names != [] ==> tagInserts == TagInserts(names, loaded)
    ensures names == [] ==> tagInserts == []
  {
    tagInserts := [];
    outcome := store.InsertPost(ToInsert(data), answers.postRefusal);
    if outcome.Inserted? && |names| > 0 {
      tagInserts := ReconcileTags(store, outcome.id, names, loaded, answers);
    }
  }

  // ---------------------------------------------------------------------------
  // The form
  // ---------------------------------------------------------------------------

  /** The store's answers during one submit, other than the ids it hands out. */
  datatype StoreAnswers = StoreAnswers(
    postRefusal: Option<Supabase.StoreError>,   // the post insert's error, if any
    refusedTags: set<string>,                   // the names whose tag insert fails
    refetchFails: bool,                         // the re-fetch yields no data
    linksRefused: bool)                         // the association insert fails

  class Form {
    var loading: bool
    var error: Option<string>
    var categories: seq<Supabase.Category>
    var tags: seq<Supabase.Tag>
    var selectedTags: seq<string>
    var newTag: string
    var values: FormValues

    /** The selected tags never repeat and are trimmed and non-empty. */
    ghost predicate Valid()
      reads this
    {
      WellFormed(selectedTags)
    }

    constructor (initial: FormValues)
      ensures Valid()
      ensures !loading && error == None && categories == [] && tags == []
      ensures selectedTags == [] && newTag == "" && values == initial
    {
      loading, error, categories, tags := false, None, [], [];
      selectedTags, newTag, values := [], "", initial;
    }

    /** The mount-time load: each list is replaced only when its query returned data. */
    method LoadCategoriesAndTags(categoriesData: Supabase.Response<Supabase.Category>,
                                 tagsData: Supabase.Response<Supabase.Tag>)
      modifies this
      ensures categories == if categoriesData.data.Some? then categoriesData.data.value else old(categories)
      ensures tags == if tagsData.data.Some? then tagsData.data.value else old(tags)
      ensures loading == old(loading) && error == old(error) && selectedTags == old(selectedTags)
      ensures newTag == old(newTag) && values == old(values)
    {
      if categoriesData.data.Some? {
        categories := categoriesData.data.value;
      }
      if tagsData.data.Some? {
        tags := tagsData.data.value;
      }
    }

    /** Typing a title; the slug follows a non-empty title. */
    method SetTitle(title: string)
      modifies this
      ensures values == old(values).(title := title, slug := SlugAfterTitleChange(title, old(values).slug))
      ensures title == "" ==> values.slug == old(values).slug
      ensures title != "" ==> IsSlug(values.slug)
      ensures loading == old(loading) && error == old(error) && categories == old(categories)
      ensures tags == old(tags) && selectedTags == old(selectedTags) && newTag == old(newTag)
    {
      values := values.(title := title, slug := SlugAfterTitleChange(title, values.slug));
    }

    /** Typing into the tag input. */
    method SetNewTag(text: string)
      modifies this
      ensures newTag == text
      ensures loading == old(loading) && error == old(error) && categories == old(categories)
      ensures tags == old(tags) && selectedTags == old(selectedTags) && values == old(values)
    {
      newTag := text;
    }

    /** Choosing a category in the select. */
    method SetCategory(id: string)
      modifies this
      ensures values == old(values).(categoryId := Some(id))
      ensures loading == old(loading) && error == old(error) && categories == old(categories)
      ensures tags == old(tags) && selectedTags == old(selectedTags) && newTag == old(newTag)
    {
      values := values.(categoryId := Some(id));
    }

    /** The "add tag" button. */
    method SubmitNewTag()
      requires Valid()
      modifies this
      ensures Valid()
      ensures TagInput(selectedTags, newTag) == AddTag(TagInput(old(selectedTags), old(newTag)))
      ensures loading == old(loading) && error == old(error) && categories == old(categories)
      ensures tags == old(tags) && values == old(values)
    {
      var r := AddTag(TagInput(selectedTags, newTag));
      selectedTags, newTag := r.selected, r.input;
    }

    /** The remove button on a selected tag's badge. */
    method DropTag(name: string)
      requires Valid()
      modifies this
      ensures Valid()
      ensures selectedTags == RemoveTag(old(selectedTags), name)
      ensures loading == old(loading) && error == old(error) && categories == old(categories)
      ensures tags == old(tags) && newTag == old(newTag) && values == old(values)
    {
      RemoveTagWellFormed(selectedTags, name);
      selectedTags := RemoveTag(selectedTags, name);
    }

    /**
     * `onSubmit`: inserts the post; on success issues a tag insert for every
     * selected name that no loaded tag matches ignoring case, re-fetches the
     * tags whose name is exactly a selected one and links the post to each
     * of them. Tag-insert failures are ignored; a refused post insert ends
     * the submit with its message and leaves the tag tables alone. `loading`
     * is false afterwards in every case. `succeeded` is true when the post
     * was created; `tagInserts` lists the tag inserts issued.
     */
    method OnSubmit(data: FormValues, store: Store, answers: StoreAnswers)
      returns (succeeded: bool, tagInserts: seq<TagInsert>)
      requires store.Valid()
      modifies this, store
      ensures store.Valid()
      ensures !loading
      ensures selectedTags == old(selectedTags) && tags == old(tags) && newTag == old(newTag)
      ensures categories == old(categories) && values == old(values)
      ensures succeeded <==> answers.postRefusal.None?
      ensures error == if succeeded then None else Some(ErrorText(answers.postRefusal.value))
      ensures Stored(store, old(store.posts), old(store.tags), old(store.postTags), old(store.nextId),
                     data, selectedTags, tags, answers)
      ensures tagInserts == if succeeded && selectedTags != [] then TagInserts(selectedTags, tags) else []
    {
      loading := true;
      error := None;
      var outcome;
      outcome, tagInserts := StoreSubmission(store, data, selectedTags, tags, answers);
      if outcome.Refused? {
        error := Some(ErrorText(outcome.error));
      }
      loading := false;
      succeeded := outcome.Inserted?;
    }

    /**
     * The form's submit: validates the values and runs `OnSubmit` only when
     * the schema accepts them; otherwise nothing but the returned errors.
     */
    method HandleSubmit(isUrl: string -> bool, store: Store, answers: StoreAnswers)
      returns (errors: seq<FieldError>, succeeded: bool)
      requires store.Valid()
      modifies this, store
      ensures store.Valid()
      ensures errors == Validate(old(values), isUrl)
      ensures selectedTags == old(selectedTags) && tags == old(tags) && newTag == old(newTag)
      ensures categories == old(categories) && values == old(values)
      ensures old(Valid()) ==> Valid()
      ensures errors != [] ==> && !succeeded && loading == old(loading) && error == old(error)
                               && store.posts == old(store.posts) && store.tags == old(store.tags)
                               && store.postTags == old(store.postTags) && store.nextId == old(store.nextId)
      ensures errors == [] ==> && !loading && (succeeded <==> answers.postRefusal.None?)
                               && error == (if succeeded then None else Some(ErrorText(answers.postRefusal.value)))
                               && Stored(store, old(store.posts), old(store.tags), old(store.postTags), old(store.nextId),
                                         old(values), selectedTags, tags, answers)
    {
      errors := Validate(values, isUrl);
      succeeded := false;
      if errors == [] {
        var inserts;
        succeeded, inserts := OnSubmit(values, store, answers);
      }
    }
  }
}
