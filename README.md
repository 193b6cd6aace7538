# Blog front-end: slugs, tags, submit, page controller and queries

A Dafny model of the logic inside a small React blog front-end backed by a
Supabase (PostgREST) store:

- **Post-creation form** (`src/components/admin/CreatePostForm.tsx`):
  - the form schema;
  - the post slug derived from the title and the tag slug derived from a new tag's name;
  - adding and removing selected tag names;
  - the submit procedure. It inserts the post, inserts every selected tag
    that no tag loaded at mount matches ignoring case, re-fetches the tags
    whose name is exactly a selected one, and links the post to each of them.
  - The three remote tables `blog_posts`, `tags` and `blog_post_tags` are
    sequences in a `Store` class. The form is a `Form` class whose fields
    are the component's state slots.
- **Page controller** (`src/App.tsx`): the `App` class holds the page's state slots. It has one method per handler:
  - load;
  - category select;
  - search submit;
  - search text change;
  - the sign-in and admin handlers, as `App.tsx` defines them. The header component shown (`src/components/BlogHeader.tsx:5-9`) takes only the search callbacks, so no button on the page calls these two;
  - closing the admin panel.
  It also has pure functions for the derived views: the featured post and the grid, the heading, and the article count.
- **Data layer** (`src/lib/supabase.ts`):
  - the read queries, as descriptions: table, embedded relations, equality filters added only for truthy arguments, the `or` of two `ilike` conditions, and ordering;
  - the post-processing of their answers: an error or a missing result gives `[]`, and the embedded `{ tag }` join rows are flattened into each post's `tags`.

Files:
- `wrappers.dfy`: `Option`.
- `js_text.dfy`: the JavaScript built-ins used, namely `toLowerCase`, `trim`, and number-to-decimal text.
- `slugs.dfy`
- `tag_selection.dfy`
- `supabase.dfy`
- `create_post_form.dfy`
- `blog_app.dfy`

The store is not a program here:
- The data layer takes it as a function from query description to response.
- The page controller takes a `Backend`: that function, plus which queries are rejected outright.
- The submit takes a `StoreAnswers` value. It says whether the post insert is refused, with which error, which tag names' inserts fail, and whether the re-fetch or the association insert fails.

Three behaviours of the code that a reader might not expect:
- **Tag slug is not trimmed.** The tag slug is lower-cased and collapsed but not trimmed (`CreatePostForm.tsx:122`), so "C++" gets the tag slug "c-" and the post slug "c".
- **`addTag` is case-sensitive.** It compares names exactly, so "React" and "react" can both be selected. When no tag loaded at mount matches them ignoring case, both get a tag insert. The "exists" check uses the list loaded at mount, not the tags inserted earlier in the same loop.
- **A blank search only reloads.** It reloads the unfiltered lists but leaves the selected category and the search text as they were (`App.tsx:75-78`). The heading can therefore still name a category over an unfiltered list.

## Model

| member | source | states |
|---|---|---|
| JsText.ToLower | src/components/admin/CreatePostForm.tsx:57 | same length; every character is lower-cased (A-Z to a-z) and no upper-case letter is left |
| JsText.ToLowerOfLower | src/components/admin/CreatePostForm.tsx:57 | a string without upper-case letters is its own lower-case form |
| JsText.Trim | src/components/admin/CreatePostForm.tsx:84 | `trim` never lengthens, and what it keeps neither starts nor ends with whitespace |
| JsText.TrimBounds | src/components/admin/CreatePostForm.tsx:84 | `trim` keeps one contiguous piece of its input; all before and after it is whitespace, and the piece neither starts nor ends with whitespace |
| JsText.TrimEmpty | src/components/admin/CreatePostForm.tsx:84 | a string trims to empty exactly when all of it is whitespace |
| JsText.TrimIdempotent | src/components/admin/CreatePostForm.tsx:84-85 | trimming a trimmed string changes nothing |
| JsText.NatToString | src/App.tsx:160 | the decimal text of a number is non-empty, all digits, and has no leading zero |
| JsText.DecimalValueOfNatToString | src/App.tsx:160 | reading the decimal text of `n` back gives `n` |
| JsText.DigitPrefixOfConcat | src/App.tsx:160 | digits followed by a non-digit: the leading digits are exactly those digits |
| Slugs.CollapseRuns | src/components/admin/CreatePostForm.tsx:58 | collapsing never lengthens, and is empty exactly for the empty string |
| Slugs.CollapseRunsIsCollapsed | src/components/admin/CreatePostForm.tsx:58 | after collapsing only `[a-z0-9-]` remain and no `-` follows a `-` |
| Slugs.CollapseRunsEnds | src/components/admin/CreatePostForm.tsx:58 | the collapsed text starts (ends) with `-` exactly when the input starts (ends) outside `[a-z0-9]` |
| Slugs.CollapseRunsOfCollapsed | src/components/admin/CreatePostForm.tsx:58 | collapsing a collapsed string gives it back |
| Slugs.CollapseWord | src/components/admin/CreatePostForm.tsx:58 | a word of `[a-z0-9]` is copied through unchanged, and what follows is collapsed on its own |
| Slugs.CollapseSeparator | src/components/admin/CreatePostForm.tsx:58 | a non-empty run outside `[a-z0-9]` followed by a word start or the end of the text becomes one `-`, and the rest is collapsed on its own |
| Slugs.CollapseThreeWords | src/components/admin/CreatePostForm.tsx:58 | three words of `[a-z0-9]` (the last two non-empty) separated by two non-empty runs of other characters come out joined by single dashes |
| Slugs.TrimDashes | src/components/admin/CreatePostForm.tsx:59 | exactly the leading `-`, if any, and then the trailing `-` of what is left, if any, are removed and every other character is kept; a string without outer `-` is unchanged |
| Slugs.TrimDashesOfCollapsed | src/components/admin/CreatePostForm.tsx:59 | removing one leading and one trailing `-` from a collapsed string leaves a slug |
| Slugs.PostSlug | src/components/admin/CreatePostForm.tsx:56-59 | the derived post slug is made of `[a-z0-9-]`, has no `--`, and neither starts nor ends with `-` |
| Slugs.PostSlugIdempotent | src/components/admin/CreatePostForm.tsx:56-59 | deriving a slug from a derived slug returns it unchanged |
| Slugs.PostSlugFixpoints | src/components/admin/CreatePostForm.tsx:56-59 | a string is its own post slug exactly when it has the slug shape |
| Slugs.PostSlugOfSlug | src/components/admin/CreatePostForm.tsx:56-59 | a string of slug shape is its own post slug |
| Slugs.PostSlugExample | src/components/admin/CreatePostForm.tsx:56-59 | "Hello, World! 2024" gets the slug "hello-world-2024" |
| Slugs.PostSlugFromTagSlug | src/components/admin/CreatePostForm.tsx:56-59 | the post slug is the tag slug of the same text with its outer dashes removed |
| Slugs.PostSlugOfCPlusPlus | src/components/admin/CreatePostForm.tsx:56-59 | "C++" gets the post slug "c" |
| Slugs.TagSlug | src/components/admin/CreatePostForm.tsx:122 | the tag slug is never longer than the name and is empty exactly for the empty name |
| Slugs.TagSlugShape | src/components/admin/CreatePostForm.tsx:122 | the tag slug has only `[a-z0-9-]`, no `--`, is no longer than the name, and is empty only for the empty name |
| Slugs.TagSlugEnds | src/components/admin/CreatePostForm.tsx:122 | the tag slug starts (ends) with `-` exactly when the name's first (last) character, lower-cased, is outside `[a-z0-9]`; nothing trims it |
| Slugs.TagSlugExample | src/components/admin/CreatePostForm.tsx:122 | "C++" gets the tag slug "c-", trailing dash kept |
| TagSelection.AddTag | src/components/admin/CreatePostForm.tsx:83-88 | the trimmed input is appended and the input cleared exactly when it is non-empty and not already selected (exact comparison); otherwise nothing changes; a duplicate-free list of trimmed non-empty names stays so |
| TagSelection.RemoveTag | src/components/admin/CreatePostForm.tsx:90-92 | no occurrence of the removed name is left; a name is kept exactly when it was selected and is not the removed one |
| TagSelection.RemoveTagKeepsOthers | src/components/admin/CreatePostForm.tsx:91 | the kept names stay in their order, each as often as before; only the removed name's occurrences go |
| TagSelection.RemoveTagWellFormed | src/components/admin/CreatePostForm.tsx:90-92 | removing keeps the list duplicate-free, trimmed and non-empty |
| TagSelection.RemoveAbsentTag | src/components/admin/CreatePostForm.tsx:91 | removing a name that is not selected changes nothing |
| TagSelection.RemoveTagAppend | src/components/admin/CreatePostForm.tsx:91 | removing from a concatenation removes from each part |
| TagSelection.AddThenRemove | src/components/admin/CreatePostForm.tsx:83-92 | removing the name just added restores the previous list |
| Supabase.PostsQuery | src/lib/supabase.ts:44-62 | `blog_posts` with category and tags, by `published_at` descending; only equality filters; one on `category.slug` exactly when the category argument is truthy, one on `tags.tag.slug` exactly when the tag argument is truthy |
| Supabase.Truthy | src/lib/supabase.ts:56-62 | an absent argument and `''` count as false, every other string as true |
| Supabase.FalsyArgumentsAddNoFilter | src/lib/supabase.ts:56-62 | absent and empty arguments both give the unfiltered query |
| Supabase.SearchQuery | src/lib/supabase.ts:106-117 | `blog_posts` with category and tags, by `published_at` descending, with one filter: title ilike `%term%` or excerpt ilike `%term%` |
| Supabase.SearchFilterText | src/lib/supabase.ts:116 | the disjunction is the text `title.ilike.%term%,excerpt.ilike.%term%` |
| Supabase.CategoriesQuery | src/lib/supabase.ts:78-82 | every category, ordered by name, unfiltered |
| Supabase.TagsQuery | src/lib/supabase.ts:92-96 | every tag, ordered by name, unfiltered |
| Supabase.RowsOrEmpty | src/lib/supabase.ts:84-89 | an error or a missing result gives `[]`, otherwise the rows themselves |
| Supabase.FlattenTags | src/lib/supabase.ts:74 | absent relations give `[]`; otherwise the relations' tags, same count, same order |
| Supabase.FlattenPosts | src/lib/supabase.ts:72-75 | same number of posts, same order, every non-tag field unchanged, each post's tags flattened |
| Supabase.FlattenPostsAppend | src/lib/supabase.ts:72-75 | flattening a concatenation flattens each part |
| Supabase.FlattenEmbedded | src/lib/supabase.ts:72-75 | flattening undoes embedding tags as join rows: nothing lost or reordered |
| Supabase.PostsOrEmpty | src/lib/supabase.ts:64-75 | an error or a missing result gives `[]`, otherwise the flattened rows |
| Supabase.GetBlogPosts | src/lib/supabase.ts:44-76 | `[]` when the store answers the posts query with an error or no data; otherwise the answered rows flattened, one post per row in order |
| Supabase.SearchBlogPosts | src/lib/supabase.ts:106-128 | `[]` when the store answers the search query with an error or no data; otherwise the answered rows flattened, one post per row in order |
| Supabase.GetCategories | src/lib/supabase.ts:78-90 | `[]` on an error or no data, otherwise the rows |
| Supabase.GetTags | src/lib/supabase.ts:92-104 | `[]` on an error or no data, otherwise the rows |
| CreatePostForm.FieldError.Message | src/components/admin/CreatePostForm.tsx:17-22 | every schema error has a non-empty message |
| CreatePostForm.FieldMessages | src/components/admin/CreatePostForm.tsx:17-22 | one message per schema error of the values, in field order, each the message of its error |
| CreatePostForm.MessageShown | src/components/admin/CreatePostForm.tsx:17-22 | a field's message is among those shown exactly when the values break that field's rule |
| CreatePostForm.Broken | src/components/admin/CreatePostForm.tsx:17-24 | an error is reported exactly when it is among the rules and its rule is broken |
| CreatePostForm.Validate | src/components/admin/CreatePostForm.tsx:17-24 | no error exactly when title, slug and excerpt are non-empty and both URL fields are URLs |
| CreatePostForm.ValidateRequiresText | src/components/admin/CreatePostForm.tsx:18-20 | each of title, slug and excerpt has its error exactly when it is empty |
| CreatePostForm.ValidateRequiresUrls | src/components/admin/CreatePostForm.tsx:21-22 | each URL field has its error exactly when it is not a URL |
| CreatePostForm.SlugAfterTitleChange | src/components/admin/CreatePostForm.tsx:54-62 | an empty title leaves the slug alone; a non-empty one replaces it with the title's post slug |
| CreatePostForm.ToInsert | src/components/admin/CreatePostForm.tsx:102-109 | the inserted columns are the submitted values; an empty or absent category becomes null |
| CreatePostForm.ErrorText | src/components/admin/CreatePostForm.tsx:150 | the error's own message when it has one, else "Failed to create article"; never empty |
| CreatePostForm.Store.InsertPost | src/components/admin/CreatePostForm.tsx:100-113 | a refused insert changes nothing and reports the error; otherwise one post row with a fresh id is appended |
| CreatePostForm.Store.InsertTag | src/components/admin/CreatePostForm.tsx:123-126 | a refused tag insert changes nothing; otherwise one tag row with the next id is appended |
| CreatePostForm.Store.InsertPostTags | src/components/admin/CreatePostForm.tsx:143 | all the associations are appended, or none when refused |
| CreatePostForm.HasNameIgnoringCaseIff | src/components/admin/CreatePostForm.tsx:119 | the search finds a tag exactly when some loaded tag's name equals the name up to case |
| CreatePostForm.TagInserts | src/components/admin/CreatePostForm.tsx:118-128 | at most one tag insert per selected name |
| CreatePostForm.TagInsertsSound | src/components/admin/CreatePostForm.tsx:118-128 | every tag insert is for a selected name with no case-insensitive match among the loaded tags, and carries that name's tag slug |
| CreatePostForm.TagInsertsComplete | src/components/admin/CreatePostForm.tsx:118-128 | every selected name with no case-insensitive match gets a tag insert with its tag slug |
| CreatePostForm.TagInsertsStep | src/components/admin/CreatePostForm.tsx:118-127 | one more name adds one insert exactly when it has no case-insensitive match |
| CreatePostForm.Created | src/components/admin/CreatePostForm.tsx:123-126 | the insert loop adds at most one tag row per issued insert |
| CreatePostForm.CreatedRows | src/components/admin/CreatePostForm.tsx:123-126 | new tag rows get consecutive ids; each comes from an issued insert whose name the store accepts |
| CreatePostForm.CreatedComplete | src/components/admin/CreatePostForm.tsx:123-126 | every issued insert the store accepts yields a row with its name and slug |
| CreatePostForm.CreatedStep | src/components/admin/CreatePostForm.tsx:123-126 | one more insert leaves the table alone when refused, and otherwise appends one row with the next id |
| CreatePostForm.Matching | src/components/admin/CreatePostForm.tsx:131-134 | the re-fetch returns exactly the rows whose name is exactly a selected name, each as often as it occurs in the table and in table order |
| CreatePostForm.Links | src/components/admin/CreatePostForm.tsx:138-141 | one association per fetched tag, linking the post to that tag, in order |
| CreatePostForm.NewNameLinked | src/components/admin/CreatePostForm.tsx:116-144 | a selected name with no case-insensitive match, whose insert the store accepts, gets a new row with its tag slug and a fresh id, and is re-fetched for linking |
| CreatePostForm.CreatedRowsFetchedOnce | src/components/admin/CreatePostForm.tsx:116-144 | when the earlier rows' ids are below the first fresh id, every row the insert loop creates is re-fetched exactly once, so the post gets exactly one association with it |
| CreatePostForm.CaseOnlyMatchNotLinked | src/components/admin/CreatePostForm.tsx:119-134 | a selected name matched only up to case gets no insert and, with no exact-name row, is not linked |
| CreatePostForm.LinkedNamesSelected | src/components/admin/CreatePostForm.tsx:131-144 | only selected names are linked, and a name whose insert was refused gets no new row |
| CreatePostForm.InsertIfMissing | src/components/admin/CreatePostForm.tsx:119-127 | one loop round: an insert with the tag slug exactly when there is no case-insensitive match; the row is added unless refused |
| CreatePostForm.CreateMissingTags | src/components/admin/CreatePostForm.tsx:118-128 | the loop issues exactly `TagInserts` and the tag table becomes the old one plus the accepted rows; posts and associations untouched |
| CreatePostForm.ReconcileTags | src/components/admin/CreatePostForm.tsx:116-145 | missing tags inserted, then the post linked to every exact-name match unless the re-fetch or the association insert fails |
| CreatePostForm.StoreSubmission | src/components/admin/CreatePostForm.tsx:100-145 | a refused post leaves every table alone; otherwise the post is added and, only when tags are selected, the tag work follows |
| CreatePostForm.Form.constructor | src/components/admin/CreatePostForm.tsx:34-39 | not loading, no error, nothing loaded or selected, empty tag input |
| CreatePostForm.Form.LoadCategoriesAndTags | src/components/admin/CreatePostForm.tsx:69-81 | each list is replaced only when its query returned data |
| CreatePostForm.Form.SetTitle | src/components/admin/CreatePostForm.tsx:54-62 | a new title; the slug follows a non-empty title and has the slug shape |
| CreatePostForm.Form.SetNewTag | src/components/admin/CreatePostForm.tsx:258 | the tag input holds the typed text and nothing else changes |
| CreatePostForm.Form.SetCategory | src/components/admin/CreatePostForm.tsx:238 | the chosen category id becomes the form's category and nothing else changes |
| CreatePostForm.Form.SubmitNewTag | src/components/admin/CreatePostForm.tsx:83-88 | the selection and input become `AddTag` of the old ones; the selection stays duplicate-free and trimmed |
| CreatePostForm.Form.DropTag | src/components/admin/CreatePostForm.tsx:90-92 | the selection becomes `RemoveTag` of the old one and stays well formed |
| CreatePostForm.Form.OnSubmit | src/components/admin/CreatePostForm.tsx:94-155 | loading ends false; success exactly when the post insert is not refused; on refusal the error text is set and no table changes; otherwise no error and the tables as `Stored` says; tag-insert failures never abort |
| CreatePostForm.Form.HandleSubmit | src/components/admin/CreatePostForm.tsx:41-49 | the schema errors of the current values; with errors nothing but the returned errors, with none the submit's effect on the store (`Stored`), its error text and loading false; in both cases the selected tags, loaded lists, tag input and values stay as they were, so the selection stays well formed |
| BlogApp.FindPublishedAt | src/App.tsx:117 | a found post has the publication time sought and is the first post that has it; nothing is found exactly when no post has it |
| BlogApp.Featured | src/App.tsx:117 | no featured post for an empty list, otherwise the first post |
| BlogApp.Regular | src/App.tsx:118 | every post but the first, in order; empty for an empty list |
| BlogApp.FeaturedThenRegular | src/App.tsx:117-118 | the featured post followed by the grid is exactly the list |
| BlogApp.FindCategory | src/App.tsx:153 | finds the first category with the slug, or none exactly when no category has it |
| BlogApp.Heading | src/App.tsx:152-157 | a truthy selected category shows the first matching category's name, or the slug when none matches or that name is empty; otherwise a non-empty search shows `Search results for "…"`; otherwise "Latest Articles" |
| BlogApp.CountLabel | src/App.tsx:160 | no label exactly while loading |
| BlogApp.CountLabelReadsBack | src/App.tsx:160 | the label begins with the count in decimal and ends in "s" exactly when the count is not one |
| BlogApp.LoadRejected | src/App.tsx:42-45 | the joint load fails when the posts request or the categories request fails, and succeeds when neither does |
| BlogApp.App.constructor | src/App.tsx:14-21 | no posts, categories, category or search text; loading; no error; dialogs closed |
| BlogApp.App.Render | src/App.tsx:113-160 | the admin panel exactly when requested by an admin; otherwise the first post featured when not loading and the rest in the grid, and a count only when not loading; the heading is `Heading` and the count `CountLabel` of the page state |
| BlogApp.App.BeginFetch | src/App.tsx:39-40 | loading, error cleared, nothing else changed |
| BlogApp.App.LoadData | src/App.tsx:37-55 | loading ends false; on rejection the fixed message and both lists kept; otherwise no error and the unfiltered posts and the categories |
| BlogApp.App.HandleCategorySelect | src/App.tsx:57-72 | the category selected, the search text cleared; then the category's posts, or the fixed message with the posts kept |
| BlogApp.App.HandleSearch | src/App.tsx:74-93 | a blank search text reloads and keeps the category and text; otherwise the category is cleared and the posts become the search result, or the fixed message with the posts kept |
| BlogApp.App.RunSearch | src/App.tsx:80-92 | the category cleared; the search result, or the fixed message with the posts kept; loading ends false |
| BlogApp.App.HandleSearchChange | src/App.tsx:95-100 | the text is stored; only the exactly empty text reloads, and then posts and categories are both replaced, or both kept with the fixed message on rejection |
| BlogApp.App.HandleAuthClick | src/App.tsx:102-104 | the sign-in dialog opens, nothing else changes |
| BlogApp.App.HandleAdminClick | src/App.tsx:106-110 | the panel is requested only by an admin, who then sees it; otherwise nothing is shown differently |
| BlogApp.App.CloseAdminPanel | src/App.tsx:31-35 | the panel closes; when it was open the load runs again, replacing posts and categories, or keeping both with the fixed message on rejection |

## Left out

- **Case mapping.** Only ASCII A-Z are lower-cased. JavaScript's full Unicode case mapping (`toLowerCase`) is not modelled.
- **URL check.** The schema's `.url()` check is the parameter `isUrl`. What zod accepts as a URL is not modelled.
- **Form library.** react-hook-form's field registration and error display are not modelled.
- **The store.** It is not modelled beyond the answers it gives:
  - PostgREST semantics;
  - what `eq` on an embedded resource and the `ilike` wildcards select;
  - how the `or` filter text is parsed when the term contains `,`, `.` or parentheses;
  - uuid generation, which is a counter here;
  - uniqueness constraints, which are the store's refusals here.
- **Rejected submit requests.** A request that rejects during the submit, as opposed to answering with an error, is not modelled. Such a rejection lands in the same `catch` as a refused post insert, so a rejection in the tag loop would abort the submit.
- **Load rejection.** A rejected load in the form is not modelled separately. It leaves both lists alone, like an answer without data.
- **Async interleaving.** Handlers run to completion one at a time. Concurrent handlers, last-response-wins, and the unawaited `loadData()` in `handleSearch` and `handleSearchChange` are not modelled. Neither are the two loads at mount, which the mount-time effects run one after the other.
- **Side effects and presentation.** Not modelled:
  - toasts, `console.error`, the `onSuccess` callback;
  - the client construction and its environment check;
  - authentication, where `isAdmin` is a parameter;
  - the presentation components.
- **Store oracles.** `StoreAnswers` and `Backend.rejects` are oracles. Which requests fail is an input, not derived from the store state.

