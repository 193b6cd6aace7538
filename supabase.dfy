/**
 * The data-access layer of the blog: the row types, the read queries the
 * front-end issues (as descriptions: table, embedded relations, filters,
 * ordering), and the post-processing of their results (a store error or a
 * missing result becomes the empty list; the `{ tag }` join rows embedded in
 * each post are flattened into its `tags`).
 *
 * The remote store is a parameter: a function from a query description to
 * the response the store gives for it.
 */
module Supabase {
  import opened Wrappers

  // ---------------------------------------------------------------------------
  // Rows
  // ---------------------------------------------------------------------------

  datatype Category = Category(id: string, name: string, slug: string, description: Option<string>, createdAt: string)

  datatype Tag = Tag(id: string, name: string, slug: string, createdAt: string)

  /** The columns of a `blog_posts` row together with its embedded category. */
  datatype PostFields = PostFields(
    id: string, title: string, slug: string, excerpt: string,
    mediumUrl: string, featuredImage: string, categoryId: Option<string>,
    publishedAt: string, createdAt: string, updatedAt: string,
    category: Option<Category>)

  /** One embedded `blog_post_tags` row with its tag. */
  datatype TagRelation = TagRelation(tag: Tag)

  /** A post as the store returns it: tags nested inside join rows, possibly absent. */
  datatype PostRow = PostRow(fields: PostFields, tags: Option<seq<TagRelation>>)

  /** A post as the front-end uses it: a flat list of tags. */
  datatype BlogPost = BlogPost(fields: PostFields, tags: seq<Tag>)

  // ---------------------------------------------------------------------------
  // Query descriptions
  // ---------------------------------------------------------------------------

  datatype Direction = Ascending | Descending

  datatype Order = OrderBy(column: string, direction: Direction)

  /** `select('*')`, or every post column with its category and its tags' join rows. */
  datatype Selection = AllColumns | PostWithCategoryAndTags

  datatype Condition = ILike(column: string, pattern: string)

  /** An equality on a (possibly embedded) column, or a disjunction of conditions. */
  datatype Filter = Eq(column: string, value: string) | AnyOf(conditions: seq<Condition>)

  datatype Query = Query(table: string, selection: Selection, filters: seq<Filter>, order: Order)

  datatype StoreError = StoreError(message: string)

  /** What the store answers: rows (or `null`) and an error (or `null`). */
  datatype Response<T> = Response(data: Option<seq<T>>, error: Option<StoreError>)

  /** An optional string argument that JavaScript treats as true: present and not `''`. */
  predicate Truthy(arg: Option<string>): (r: bool)
    ensures arg == None || arg == Some("") ==> !r
    ensures arg.Some? && arg.value != "" ==> r
  {
    arg.Some? && arg.value != ""
  }

  /** The values of the equality filters on `column`, in the order they were added. */
  function EqValues(filters: seq<Filter>, column: string): seq<string> {
    if filters == [] then []
    else if filters[0].Eq? && filters[0].column == column then [filters[0].value] + EqValues(filters[1..], column)
    else EqValues(filters[1..], column)
  }

  lemma {:induction false} EqValuesAppend(a: seq<Filter>, b: seq<Filter>, column: string)
    ensures EqValues(a + b, column) == EqValues(a, column) + EqValues(b, column)
  {
    if a != [] {
      assert (a + b)[1..] == a[1..] + b;
      EqValuesAppend(a[1..], b, column);
    } else {
      assert a + b == b;
    }
  }

  const PostOrder := OrderBy("published_at", Descending)
  const NameOrder := OrderBy("name", Ascending)

  /**
   * The query of `getBlogPosts`: posts with category and tags, newest first,
   * with an equality filter on the category's slug only for a truthy
   * `categorySlug` and one on the tags' slug only for a truthy `tagSlug`.
   */
  function PostsQuery(categorySlug: Option<string>, tagSlug: Option<string>): (q: Query)
    ensures q.table == "blog_posts" && q.selection == PostWithCategoryAndTags && q.order == PostOrder
    ensures forall f :: f in q.filters ==> f.Eq?
    ensures EqValues(q.filters, "category.slug") == if Truthy(categorySlug) then [categorySlug.value] else []
    ensures EqValues(q.filters, "tags.tag.slug") == if Truthy(tagSlug) then [tagSlug.value] else []
    ensures |q.filters| == (if Truthy(categorySlug) then 1 else 0) + (if Truthy(tagSlug) then 1 else 0)
  {
    var byCategory := if Truthy(categorySlug) then [Eq("category.slug", categorySlug.value)] else [];
    var byTag := if Truthy(tagSlug) then [Eq("tags.tag.slug", tagSlug.value)] else [];
    EqValuesAppend(byCategory, byTag, "category.slug");
    EqValuesAppend(byCategory, byTag, "tags.tag.slug");
    Query("blog_posts", PostWithCategoryAndTags, byCategory + byTag, PostOrder)
  }

  /** An absent argument and an empty one give the same, unfiltered, query. */
  lemma FalsyArgumentsAddNoFilter(categorySlug: Option<string>, tagSlug: Option<string>)
    requires !Truthy(categorySlug) && !Truthy(tagSlug)
    ensures PostsQuery(categorySlug, tagSlug) == PostsQuery(None, None)
    ensures PostsQuery(categorySlug, tagSlug).filters == []
  {
  }

  /**
   * The query of `searchBlogPosts`: posts with category and tags, newest
   * first, keeping those whose title or whose excerpt matches `%term%`.
   */
  function SearchQuery(term: string): (q: Query)
    ensures q.table == "blog_posts" && q.selection == PostWithCategoryAndTags && q.order == PostOrder
    ensures |q.filters| == 1 && q.filters[0].AnyOf?
    ensures q.filters[0].conditions == [ILike("title", "%" + term + "%"), ILike("excerpt", "%" + term + "%")]
  {
    Query("blog_posts", PostWithCategoryAndTags,
          [AnyOf([ILike("title", "%" + term + "%"), ILike("excerpt", "%" + term + "%")])],
          PostOrder)
  }

  /** The text of a disjunction as the store's `or` filter takes it: `col.ilike.pattern`, comma-separated. */
  function OrFilterText(conditions: seq<Condition>): string {
    if conditions == [] then ""
    else if |conditions| == 1 then conditions[0].column + ".ilike." + conditions[0].pattern
    else conditions[0].column + ".ilike." + conditions[0].pattern + "," + OrFilterText(conditions[1..])
  }

  /** The search filter is exactly the text `searchBlogPosts` hands to the store. */
  lemma SearchFilterText(term: string)
    ensures OrFilterText(SearchQuery(term).filters[0].conditions)
         == "title.ilike.%" + term + "%,excerpt.ilike.%" + term + "%"
  {
    var c := SearchQuery(term).filters[0].conditions;
    assert c[1..] == [ILike("excerpt", "%" + term + "%")];
    assert OrFilterText(c[1..]) == "excerpt.ilike.%" + term + "%";
  }

  /** The query of `getCategories`: every category, by name. */
  function CategoriesQuery(): (q: Query)
    ensures q.table == "categories" && q.selection == AllColumns && q.filters == [] && q.order == NameOrder
  {
    Query("categories", AllColumns, [], NameOrder)
  }

  /** The query of `getTags`: every tag, by name. */
  function TagsQuery(): (q: Query)
    ensures q.table == "tags" && q.selection == AllColumns && q.filters == [] && q.order == NameOrder
  {
    Query("tags", AllColumns, [], NameOrder)
  }

  // ---------------------------------------------------------------------------
  // Results
  // ---------------------------------------------------------------------------

  /** `error ? [] : data || []`. */
  function RowsOrEmpty<T>(response: Response<T>): (rows: seq<T>)
    ensures response.error.Some? || response.data.None? ==> rows == []
    ensures response.error.None? && response.data.Some? ==> rows == response.data.value
  {
    if response.error.Some? then [] else response.data.GetOr([])
  }

  /** `relations?.map(r => r.tag) || []`. */
  function FlattenTags(relations: Option<seq<TagRelation>>): (tags: seq<Tag>)
    ensures relations.None? ==> tags == []
    ensures relations.Some? ==> |tags| == |relations.value|
    ensures relations.Some? ==> forall i :: 0 <= i < |tags| ==> tags[i] == relations.value[i].tag
  {
    match relations
    case None => []
    case Some(rs) => seq(|rs|, i requires 0 <= i < |rs| => rs[i].tag)
  }

  /**
   * Flattens every post's tags: same number of posts in the same order, every
   * other field unchanged.
   */
  function FlattenPosts(rows: seq<PostRow>): (posts: seq<BlogPost>)
    ensures |posts| == |rows|
    ensures forall i :: 0 <= i < |rows| ==> posts[i].fields == rows[i].fields
    ensures forall i :: 0 <= i < |rows| ==> posts[i].tags == FlattenTags(rows[i].tags)
  {
    if rows == [] then []
    else [BlogPost(rows[0].fields, FlattenTags(rows[0].tags))] + FlattenPosts(rows[1..])
  }

  /** Flattening a concatenation flattens each part. */
  lemma {:induction false} FlattenPostsAppend(a: seq<PostRow>, b: seq<PostRow>)
    ensures FlattenPosts(a + b) == FlattenPosts(a) + FlattenPosts(b)
  {
    if a != [] {
      assert (a + b)[1..] == a[1..] + b;
      FlattenPostsAppend(a[1..], b);
    } else {
      assert a + b == b;
    }
  }

  /** The tags embedded back as join rows. */
  function EmbedTags(post: BlogPost): PostRow {
    PostRow(post.fields, Some(seq(|post.tags|, i requires 0 <= i < |post.tags| => TagRelation(post.tags[i]))))
  }

  /** Flattening undoes embedding: no post and no tag is lost or reordered. */
  lemma FlattenEmbedded(posts: seq<BlogPost>)
    ensures FlattenPosts(seq(|posts|, i requires 0 <= i < |posts| => EmbedTags(posts[i]))) == posts
  {
    var rows := seq(|posts|, i requires 0 <= i < |posts| => EmbedTags(posts[i]));
    var flat := FlattenPosts(rows);
    forall i | 0 <= i < |posts| ensures flat[i] == posts[i] {
      assert flat[i].tags == FlattenTags(rows[i].tags);
    }
  }

  /** The post-processing shared by `getBlogPosts` and `searchBlogPosts`. */
  function PostsOrEmpty(response: Response<PostRow>): (posts: seq<BlogPost>)
    ensures response.error.Some? || response.data.None? ==> posts == []
    ensures response.error.None? && response.data.Some? ==> posts == FlattenPosts(response.data.value)
  {
    FlattenPosts(RowsOrEmpty(response))
  }

  /** `getBlogPosts(categorySlug, tagSlug)` against the store `store`. */
  function GetBlogPosts(categorySlug: Option<string>, tagSlug: Option<string>,
                        store: Query -> Response<PostRow>): (posts: seq<BlogPost>)
    ensures var response := store(PostsQuery(categorySlug, tagSlug));
      && (response.error.Some? || response.data.None? ==> posts == [])
      && (response.error.None? && response.data.Some? ==> posts == FlattenPosts(response.data.value))
  {
    PostsOrEmpty(store(PostsQuery(categorySlug, tagSlug)))
  }

  /** `searchBlogPosts(term)` against the store `store`. */
  function SearchBlogPosts(term: string, store: Query -> Response<PostRow>): (posts: seq<BlogPost>)
    ensures var response := store(SearchQuery(term));
      && (response.error.Some? || response.data.None? ==> posts == [])
      && (response.error.None? && response.data.Some? ==> posts == FlattenPosts(response.data.value))
  {
    PostsOrEmpty(store(SearchQuery(term)))
  }

  /** `getCategories()` against the store `store`. */
  function GetCategories(store: Query -> Response<Category>): (categories: seq<Category>)
    ensures var response := store(CategoriesQuery());
      && (response.error.Some? || response.data.None? ==> categories == [])
      && (response.error.None? && response.data.Some? ==> categories == response.data.value)
  {
    RowsOrEmpty(store(CategoriesQuery()))
  }

  /** `getTags()` against the store `store`. */
  function GetTags(store: Query -> Response<Tag>): (tags: seq<Tag>)
    ensures var response := store(TagsQuery());
      && (response.error.Some? || response.data.None? ==> tags == [])
      && (response.error.None? && response.data.Some? ==> tags == response.data.value)
  {
    RowsOrEmpty(store(TagsQuery()))
  }
}
