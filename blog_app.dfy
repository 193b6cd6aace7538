/**
 * The blog's page controller: the view state (posts, categories, the
 * selected category, the search text, the loading flag and the error
 * message, the two dialogs), one transition per handler, and the values the
 * page derives from that state (the featured post and the grid below it,
 * the heading, the article count).
 *
 * The store is a `Backend`: the answers the store gives to each query, and
 * which queries fail outright (a rejected request, as opposed to an error
 * answer, which the data layer already turns into an empty list).
 */
module BlogApp {
  import opened Wrappers
  import opened JsText
  import opened Supabase

  // ---------------------------------------------------------------------------
  // Featured post and grid
  // ---------------------------------------------------------------------------

  /** `posts.find(p => p.published_at === at)`, where an absent `at` matches no post. */
  function FindPublishedAt(posts: seq<BlogPost>, at: Option<string>): (r: Option<BlogPost>)
    ensures r.Some? ==> at == Some(r.value.fields.publishedAt)
    ensures r.Some? ==> exists i :: 0 <= i < |posts| && posts[i] == r.value
                          && forall j :: 0 <= j < i ==> at != Some(posts[j].fields.publishedAt)
    ensures r.None? <==> forall i :: 0 <= i < |posts| ==> at != Some(posts[i].fields.publishedAt)
  {
    if posts == [] then None
    else if at == Some(posts[0].fields.publishedAt) then Some(posts[0])
    else
      var r := FindPublishedAt(posts[1..], at);
      assert forall i :: 1 <= i < |posts| ==> posts[i] == posts[1..][i - 1];
      assert r.Some? ==> exists i :: 1 <= i < |posts| && posts[i] == r.value
                           && forall j :: 0 <= j < i ==> at != Some(posts[j].fields.publishedAt) by {
        if r.Some? {
          var k :| 0 <= k < |posts[1..]| && posts[1..][k] == r.value
                   && forall j :: 0 <= j < k ==> at != Some(posts[1..][j].fields.publishedAt);
          assert posts[k + 1] == r.value;
        }
      }
      r
  }

  /** The first post found with the first post's publication time. */
  function Featured(posts: seq<BlogPost>): (r: Option<BlogPost>)
    ensures posts == [] ==> r == None
    ensures posts != [] ==> r == Some(posts[0])
  {
    FindPublishedAt(posts, if posts == [] then None else Some(posts[0].fields.publishedAt))
  }

  /** `posts.slice(1)`. */
  function Regular(posts: seq<BlogPost>): (r: seq<BlogPost>)
    ensures posts == [] ==> r == []
    ensures posts != [] ==> |r| == |posts| - 1 && forall i :: 0 <= i < |r| ==> r[i] == posts[i + 1]
  {
    if posts == [] then [] else posts[1..]
  }

  /** The featured post followed by the grid is the whole list, with nothing lost or repeated. */
  lemma FeaturedThenRegular(posts: seq<BlogPost>)
    ensures Featured(posts).None? <==> posts == []
    ensures posts != [] ==> [Featured(posts).value] + Regular(posts) == posts
  {
    if posts != [] {
      assert [posts[0]] + posts[1..] == posts;
    }
  }

  // ---------------------------------------------------------------------------
  // Heading and count
  // ---------------------------------------------------------------------------

  /** `categories.find(c => c.slug === slug)`. */
  function FindCategory(categories: seq<Category>, slug: string): (r: Option<Category>)
    ensures r.None? <==> forall i :: 0 <= i < |categories| ==> categories[i].slug != slug
    ensures r.Some? ==> exists i :: 0 <= i < |categories| && categories[i] == r.value && r.value.slug == slug
                          && forall j :: 0 <= j < i ==> categories[j].slug != slug
  {
    if categories == [] then None
    else if categories[0].slug == slug then Some(categories[0])
    else
      var r := FindCategory(categories[1..], slug);
      assert forall i :: 1 <= i < |categories| ==> categories[i] == categories[1..][i - 1];
      assert r.Some? ==> exists i :: 1 <= i < |categories| && categories[i] == r.value
                           && forall j :: 0 <= j < i ==> categories[j].slug != slug by {
        if r.Some? {
          var k :| 0 <= k < |categories[1..]| && categories[1..][k] == r.value
                   && forall j :: 0 <= j < k ==> categories[1..][j].slug != slug;
          assert categories[k + 1] == r.value;
        }
      }
      r
  }

  /**
   * The heading above the grid: the selected category's name (or its slug,
   * when no loaded category has it or its name is empty), else the search
   * text, else the default.
   */
  function Heading(selectedCategory: Option<string>, categories: seq<Category>, searchTerm: string): (r: string)
    ensures Truthy(selectedCategory) && (forall i :: 0 <= i < |categories| ==> categories[i].slug != selectedCategory.value)
            ==> r == selectedCategory.value + " Articles"
    ensures Truthy(selectedCategory) ==>
              forall i :: 0 <= i < |categories| && categories[i].slug == selectedCategory.value && categories[i].name != ""
                          && (forall j :: 0 <= j < i ==> categories[j].slug != selectedCategory.value)
                          ==> r == categories[i].name + " Articles"
    ensures Truthy(selectedCategory) ==>
              forall i :: 0 <= i < |categories| && categories[i].slug == selectedCategory.value && categories[i].name == ""
                          && (forall j :: 0 <= j < i ==> categories[j].slug != selectedCategory.value)
                          ==> r == selectedCategory.value + " Articles"
    ensures !Truthy(selectedCategory) && searchTerm != "" ==> r == "Search results for \"" + searchTerm + "\""
    ensures !Truthy(selectedCategory) && searchTerm == "" ==> r == "Latest Articles"
  {
    if Truthy(selectedCategory) then
      var found := FindCategory(categories, selectedCategory.value);
      var shown := if found.Some? && found.value.name != "" then found.value.name else selectedCategory.value;
      assert found.Some? ==> forall i :: 0 <= i < |categories| && categories[i].slug == selectedCategory.value
                                 && (forall j :: 0 <= j < i ==> categories[j].slug != selectedCategory.value)
                                 ==> categories[i] == found.value;
      shown + " Articles"
    else if searchTerm != "" then
      "Search results for \"" + searchTerm + "\""
    else
      "Latest Articles"
  }

  /** `${n} article${n !== 1 ? 's' : ''}`, shown only when not loading. */
  function CountLabel(loading: bool, n: nat): (r: Option<string>)
    ensures loading <==> r == None
  {
    if loading then None
    else Some(NatToString(n) + " article" + (if n != 1 then "s" else ""))
  }

  /** The count label starts with the count in decimal, and ends in "s" exactly when the count is not one. */
  lemma CountLabelReadsBack(n: nat)
    ensures var text := CountLabel(false, n).value;
      && DecimalValue(DigitPrefix(text)) == n
      && (text[|text| - 1] == 's' <==> n != 1)
  {
    var digits := NatToString(n);
    var rest := " article" + (if n != 1 then "s" else "");
    assert NatToString(n) + " article" + (if n != 1 then "s" else "") == digits + rest;
    DigitPrefixOfConcat(digits, rest);
    DecimalValueOfNatToString(n);
  }

  // ---------------------------------------------------------------------------
  // The controller
  // ---------------------------------------------------------------------------

  /** The store's answer to each query, and the queries whose request fails outright. */
  datatype Backend = Backend(
    postRows: Query -> Response<PostRow>,
    categoryRows: Query -> Response<Category>,
    rejects: Query -> bool)

  const LoadFailed := "Failed to load blog data"
  const FilterFailed := "Failed to filter posts"
  const SearchFailed := "Failed to search posts"

  /** `Promise.all([getBlogPosts(), getCategories()])` fails when either request fails. */
  predicate LoadRejected(backend: Backend): (r: bool)
    ensures backend.rejects(PostsQuery(None, None)) ==> r
    ensures backend.rejects(CategoriesQuery()) ==> r
    ensures !backend.rejects(PostsQuery(None, None)) && !backend.rejects(CategoriesQuery()) ==> !r
  {
    backend.rejects(PostsQuery(None, None)) || backend.rejects(CategoriesQuery())
  }

  /** What the page shows: the admin panel in place of the blog, or the blog. */
  datatype Screen =
    | AdminScreen
    | BlogScreen(featured: Option<BlogPost>, regular: seq<BlogPost>, heading: string,
                 count: Option<string>, loading: bool, error: Option<string>)

  class App {
    var posts: seq<BlogPost>
    var categories: seq<Category>
    var selectedCategory: Option<string>
    var searchTerm: string
    var loading: bool
    var error: Option<string>
    var authDialogOpen: bool
    var showAdminPanel: bool

    /** The state before the first load: nothing fetched yet, loading. */
    constructor ()
      ensures posts == [] && categories == [] && selectedCategory == None && searchTerm == ""
      ensures loading && error == None && !authDialogOpen && !showAdminPanel
    {
      posts, categories, selectedCategory, searchTerm := [], [], None, "";
      loading, error, authDialogOpen, showAdminPanel := true, None, false, false;
    }

    /** The render: the admin panel when requested by an admin, else the blog page. */
    function Render(isAdmin: bool): (s: Screen)
      reads this
      ensures s.AdminScreen? <==> showAdminPanel && isAdmin
      ensures s.BlogScreen? ==> s.loading == loading && s.error == error
      ensures s.BlogScreen? && !loading && posts != [] ==> s.featured == Some(posts[0]) && [posts[0]] + s.regular == posts
      ensures s.BlogScreen? && (loading || posts == []) ==> s.featured == None
      ensures s.BlogScreen? ==> (s.count == None <==> loading)
      ensures s.BlogScreen? ==> && s.heading == Heading(selectedCategory, categories, searchTerm)
                                && s.count == CountLabel(loading, |posts|)
                                && s.regular == Regular(posts)
    {
      if showAdminPanel && isAdmin then AdminScreen
      else
        FeaturedThenRegular(posts);
        BlogScreen(if loading then None else Featured(posts), Regular(posts),
                   Heading(selectedCategory, categories, searchTerm),
                   CountLabel(loading, |posts|), loading, error)
    }

    /** The common start of every fetching handler: loading, no error. */
    method BeginFetch()
      modifies this
      ensures loading && error == None
      ensures posts == old(posts) && categories == old(categories)
      ensures selectedCategory == old(selectedCategory) && searchTerm == old(searchTerm)
      ensures authDialogOpen == old(authDialogOpen) && showAdminPanel == old(showAdminPanel)
    {
      loading := true;
      error := None;
    }

    /** `loadData`: all posts, unfiltered, and the categories; on failure both lists are kept. */
    method LoadData(backend: Backend)
      modifies this
      ensures !loading
      ensures LoadRejected(backend) ==> error == Some(LoadFailed) && posts == old(posts) && categories == old(categories)
      ensures !LoadRejected(backend) ==> && error == None
                                         && posts == GetBlogPosts(None, None, backend.postRows)
                                         && categories == GetCategories(backend.categoryRows)
      ensures selectedCategory == old(selectedCategory) && searchTerm == old(searchTerm)
      ensures authDialogOpen == old(authDialogOpen) && showAdminPanel == old(showAdminPanel)
    {
      BeginFetch();
      if LoadRejected(backend) {
        error := Some(LoadFailed);
      } else {
        posts := GetBlogPosts(None, None, backend.postRows);
        categories := GetCategories(backend.categoryRows);
      }
      loading := false;
    }

    /** `handleCategorySelect`: selects `slug`, clears the search and lists that category's posts. */
    method HandleCategorySelect(slug: Option<string>, backend: Backend)
      modifies this
      ensures !loading && selectedCategory == slug && searchTerm == ""
      ensures backend.rejects(PostsQuery(slug, None)) ==> error == Some(FilterFailed) && posts == old(posts)
      ensures !backend.rejects(PostsQuery(slug, None)) ==> error == None && posts == GetBlogPosts(slug, None, backend.postRows)
      ensures categories == old(categories)
      ensures authDialogOpen == old(authDialogOpen) && showAdminPanel == old(showAdminPanel)
    {
      BeginFetch();
      selectedCategory := slug;
      searchTerm := "";
      if backend.rejects(PostsQuery(slug, None)) {
        error := Some(FilterFailed);
      } else {
        posts := GetBlogPosts(slug, None, backend.postRows);
      }
      loading := false;
    }

    /**
     * `handleSearch`: a blank search text reloads everything and leaves the
     * category and the text alone; otherwise the category is cleared and the
     * posts become the search result.
     */
    method HandleSearch(backend: Backend)
      modifies this
      ensures !loading && searchTerm == old(searchTerm)
      ensures authDialogOpen == old(authDialogOpen) && showAdminPanel == old(showAdminPanel)
      ensures Trim(old(searchTerm)) == "" ==>
                && selectedCategory == old(selectedCategory)
                && (LoadRejected(backend) ==> error == Some(LoadFailed) && posts == old(posts) && categories == old(categories))
                && (!LoadRejected(backend) ==> && error == None
                                               && posts == GetBlogPosts(None, None, backend.postRows)
                                               && categories == GetCategories(backend.categoryRows))
      ensures Trim(old(searchTerm)) != "" ==>
                && selectedCategory == None && categories == old(categories)
                && (backend.rejects(SearchQuery(searchTerm)) ==> error == Some(SearchFailed) && posts == old(posts))
                && (!backend.rejects(SearchQuery(searchTerm)) ==>
                      error == None && posts == SearchBlogPosts(searchTerm, backend.postRows))
    {
      if Trim(searchTerm) == "" {
        LoadData(backend);
      } else {
        RunSearch(backend);
      }
    }

    /** The search proper: clears the category and lists the posts matching the search text. */
    method RunSearch(backend: Backend)
      modifies this
      ensures !loading && searchTerm == old(searchTerm) && selectedCategory == None && categories == old(categories)
      ensures backend.rejects(SearchQuery(searchTerm)) ==> error == Some(SearchFailed) && posts == old(posts)
      ensures !backend.rejects(SearchQuery(searchTerm)) ==> error == None && posts == SearchBlogPosts(searchTerm, backend.postRows)
      ensures authDialogOpen == old(authDialogOpen) && showAdminPanel == old(showAdminPanel)
    {
      BeginFetch();
      selectedCategory := None;
      if backend.rejects(SearchQuery(searchTerm)) {
        error := Some(SearchFailed);
      } else {
        posts := SearchBlogPosts(searchTerm, backend.postRows);
      }
      loading := false;
    }

    /** `handleSearchChange`: stores the text; only the empty text reloads. */
    method HandleSearchChange(value: string, backend: Backend)
      modifies this
      ensures searchTerm == value && selectedCategory == old(selectedCategory)
      ensures authDialogOpen == old(authDialogOpen) && showAdminPanel == old(showAdminPanel)
      ensures value != "" ==> && posts == old(posts) && categories == old(categories)
                              && loading == old(loading) && error == old(error)
      ensures value == "" ==> && !loading
                              && (LoadRejected(backend) ==> error == Some(LoadFailed) && posts == old(posts)
                                                            && categories == old(categories))
                              && (!LoadRejected(backend) ==> && error == None
                                                             && posts == GetBlogPosts(None, None, backend.postRows)
                                                             && categories == GetCategories(backend.categoryRows))
    {
      searchTerm := value;
      if value == "" {
        LoadData(backend);
      }
    }

    /**
     * `handleAuthClick`: opens the sign-in dialog. The handler is modelled as
     * `App.tsx` defines it; the header component shown takes no such
     * callback, so no button on the page calls it.
     */
    method HandleAuthClick()
      modifies this
      ensures authDialogOpen
      ensures posts == old(posts) && categories == old(categories) && selectedCategory == old(selectedCategory)
      ensures searchTerm == old(searchTerm) && loading == old(loading) && error == old(error)
      ensures showAdminPanel == old(showAdminPanel)
    {
      authDialogOpen := true;
    }

    /**
     * `handleAdminClick`: asks for the admin panel, which only an admin gets.
     * As with `HandleAuthClick`, the header shown does not connect it to a
     * button.
     */
    method HandleAdminClick(isAdmin: bool)
      modifies this
      ensures showAdminPanel == (old(showAdminPanel) || isAdmin)
      ensures isAdmin ==> Render(isAdmin) == AdminScreen
      ensures !isAdmin ==> Render(isAdmin) == old(Render(isAdmin))
      ensures posts == old(posts) && categories == old(categories) && selectedCategory == old(selectedCategory)
      ensures searchTerm == old(searchTerm) && loading == old(loading) && error == old(error)
      ensures authDialogOpen == old(authDialogOpen)
    {
      if isAdmin {
        showAdminPanel := true;
      }
    }

    /**
     * The admin panel's close button; hiding the panel re-runs the load, as
     * the effect watching `showAdminPanel` does when it turns false.
     */
    method CloseAdminPanel(backend: Backend)
      modifies this
      ensures !showAdminPanel
      ensures !old(showAdminPanel) ==> && posts == old(posts) && categories == old(categories)
                                       && loading == old(loading) && error == old(error)
      ensures old(showAdminPanel) ==> && !loading
                                      && (LoadRejected(backend) ==> error == Some(LoadFailed) && posts == old(posts)
                                                                    && categories == old(categories))
                                      && (!LoadRejected(backend) ==> && error == None
                                                                     && posts == GetBlogPosts(None, None, backend.postRows)
                                                                     && categories == GetCategories(backend.categoryRows))
      ensures selectedCategory == old(selectedCategory) && searchTerm == old(searchTerm)
      ensures authDialogOpen == old(authDialogOpen)
    {
      if showAdminPanel {
        showAdminPanel := false;
        LoadData(backend);
      }
    }
  }
}
