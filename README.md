# Infolio core, modelled in Dafny

Infolio is a feed-aggregation dashboard. Users register web sites as sources. The
application discovers each site's RSS or Atom feed, turns the feed's entries into posts
or articles, and stores them in tables with uniqueness rules. It pages through those
tables in a Streamlit interface and drafts LinkedIn posts about what was read. Schema
changes are applied by run-once migrations.

This project models the sequential core under the interface and the language-model
calls, one Dafny module per source file:

- **Feed discovery and entry mapping.** `ScrapingHandler`, `UrlUtils` and `FeedUtils`
  model the three discovery and mapping variants. A page is a sequence of tags
  (`Html`), a feed a sequence of entries with optional fields (`Feedparser`). `urljoin`,
  HTML parsing, `feedparser` and the HTTP request are function-typed parameters or
  inputs. `src/utils.py:14-89` repeats `find_feed_url` of `src/utils/url_utils.py:11-41`
  and `parse_feed` of `src/utils/feed_utils.py:7-50` statement for statement, so
  `UrlUtils` and `FeedUtils` model both copies.
- **Stores and ingestion.**
  - `Models` and `PostModel` hold the record types and their constraints.
  - `Database` models `DatabaseManager` as a class over the source and post tables.
  - `PostService` models the additive ingestion loop, which commits or rolls back each
    entry in turn.
  - `SourceService` models the destructive refresh.
  - `ArticleModel`, `LinkModel`, `ChatModel` and `UserModel` are the SQLite tables with
    their INSERT OR IGNORE and INSERT OR REPLACE rules.
  - `LinkedInService` models the chat log and the draft/published state of LinkedIn
    posts.
- **Migrations.** `BaseMigration` models the run-once `migrate` and its `migrations`
  table. `RunMigrations` models the file filter and sort, the selection of one
  migration, and the run that stops at the first failure.
- **Helpers of the interface.**
  - `WebScraper` models HTML minification, title and link extraction, and main-content
    lookup, over a page given as query functions.
  - `LinkedInPostDialog` models right-to-left detection, the default Arabic draft and
    the language parity rule.
  - `Components` and `PostList` model the pagination arithmetic, the page reset, the tab
    filters and the mark-read-if-unread rule.

Each state-changing class keeps its table in fields (`seq` plus the next key). The
`sources` and `posts` tables that `init_db` creates have plain rowid keys, so SQLite
gives a new post one more than the largest post id, and ids freed by a delete at the
end of the table are used again; `Database.Valid` ties the post counter to that rule. A pure
function of the old table specifies each operation, a `Valid` predicate states the
table's constraints, and each method's `ensures` ties the new state to that function.
The lemmas beside the functions state what the source promises: uniqueness kept,
nothing else changed, idempotence, involution, round trips, first-match precedence,
ordering and error paths.

The shared modules are `Base` (Option, Python's whitespace set, `strip`, `split`,
`join`, `replace`, `lower`) and `Ordering` (the stable sorts used for `ORDER BY` and
`sorted`, and `LIMIT`/`OFFSET`).

## Model

| member | source | states |
|---|---|---|
| Models.NewSource | src/models.py:8-17 | a new source carries its id, url and feed URL, is active, and was created and last checked at the given time |
| Models.NewPost | src/models.py:21-34 | a new post is unread with no read time, was created now, and keeps its source, link and publication date |
| Models.AppendPostValid | src/models.py:24-34 | appending a post that clashes with no row under the link and (title, source) uniqueness keeps the table's constraints and key order |
| Database.InsertSourceProperties | src/database.py:14-35 | an insert that passed the duplicate filter keeps the sources' constraints, leaves the posts alone, adds an active source, and makes the same call a duplicate from then on |
| Database.NullFeedIsDuplicate | src/database.py:17-21 | with no feed URL, any stored source without a feed URL matches the filter, because `feed_url == None` compares as IS NULL |
| Database.ActiveSources | src/database.py:46-48 | the result holds exactly the active rows of the table |
| Database.UpdateSourceFeedProperties | src/database.py:50-56 | only the feed URL and last-checked time of the row with that id change; an unknown id changes nothing; the constraints hold |
| Database.PostFor | src/database.py:58-70 | the new post keeps the given fields, is unread, and has the given publication date or else the current time |
| Database.InsertPostValid | src/database.py:71-73 | committing a post that clashes with no row keeps both tables valid and leaves the sources alone |
| Database.BySource | src/database.py:89-90 | the rows kept are exactly the table's rows of that source |
| Database.AllPostsProperties | src/database.py:75-81 | a page holds at most `limit` rows of the table, newest first; with no offset and no effective limit it holds every row |
| Database.PostsBySourceProperties | src/database.py:87-93 | the result holds at most `limit` rows, all of that source and of the table, newest first |
| Database.DeletePostsBySourceSelects | src/database.py:95-98 | every row of the source goes and every other row stays |
| Database.DeletePostsBySourceValid | src/database.py:95-98 | the rows left keep the table's constraints |
| Database.DeleteSourcePostsValid | src/database.py:95-98 | after the delete the table keeps its constraints and its next key is one past the largest remaining id |
| Database.DeleteFreesLastKey | src/database.py:95-98 | deleting the source of the row with the largest key lets the next post reuse a key no larger than that row's, or 1 when no rows remain |
| Database.MarkPostAsReadProperties | src/database.py:100-106 | the row with that id becomes read as of now and nothing else changes; an unknown id is a no-op; a second call changes only the read time |
| Database.DatabaseManager.constructor | src/database.py:9-12 | a fresh database has empty, valid tables |
| Database.DatabaseManager.AddSource | src/database.py:14-35 | a duplicate raises (None) and changes nothing; otherwise the new active source is returned and appended |
| Database.DatabaseManager.CheckSourceExists | src/database.py:37-44 | true exactly when some row has the url as its url or feed URL, or has the given feed URL |
| Database.DatabaseManager.GetAllSources | src/database.py:46-48 | returns exactly the active sources |
| Database.DatabaseManager.UpdateSourceFeedRow | src/database.py:50-56 | the new state is the feed URL update of the old, and stays valid |
| Database.DatabaseManager.AddPost | src/database.py:58-73 | a post that clashes raises (None) and changes nothing; otherwise it is appended and returned, keyed one past the largest existing post id (1 for an empty table) |
| Database.DatabaseManager.CommitPost | src/services/post_service.py:61-68 | the commit succeeds exactly when the post clashes with no row; on success the post is appended, otherwise the rollback leaves the state unchanged |
| Database.DatabaseManager.GetAllPosts | src/database.py:75-81 | returns the page of the newest-first order, of at most `limit` rows |
| Database.DatabaseManager.GetTotalPostsCount | src/database.py:83-85 | returns the number of rows |
| Database.DatabaseManager.GetPostsBySource | src/database.py:87-93 | returns the source's newest posts, all of that source |
| Database.DatabaseManager.DeletePostsOfSource | src/database.py:95-98 | the new state is the old one without the source's posts, the next post key one past the largest remaining id, and stays valid |
| Database.DatabaseManager.MarkRead | src/database.py:100-106 | the new state is the old one with that post marked read, and stays valid |
| PostService.ImageUrlOf | src/services/post_service.py:54 | the image URL is present exactly when the entry dict holds one |
| PostService.EntryPost | src/services/post_service.py:50-58 | the post built for an entry carries its link, title, description, summary, image and date under the source, unread, with the column defaults |
| PostService.CollidesIffKnown | src/services/post_service.py:60-68 | the commit of an entry fails with IntegrityError exactly when a row already holds its link, or its title under the same source |
| PostService.IngestGrows | src/services/post_service.py:47-74 | one iteration keeps the store valid, leaves the sources and existing posts in place, appends at most one fresh unread row of the source, and leaves the entry known |
| PostService.KnownGrows | src/services/post_service.py:60-68 | an entry that clashes with the table keeps clashing as rows are appended |
| PostService.IngestAllProperties | src/services/post_service.py:44-76 | the loop appends at most one row per entry, keeps everything before, and afterwards every entry is known |
| PostService.IngestAllKnown | src/services/post_service.py:60-68 | entries that are all known already add nothing |
| PostService.IngestAllTwice | src/services/post_service.py:44-76 | re-running the ingestion of the same entries adds nothing |
| PostService.IngestAllAppend | src/services/post_service.py:47 | the loop over a concatenation is the loop over its halves in turn |
| PostService.CommittedStays | src/services/post_service.py:61-63 | a committed entry's row stays with its link in every later state of the loop |
| PostService.LaterDuplicateSkipped | src/services/post_service.py:65-68 | of two entries of a batch that share a link, the later one is not committed once the earlier one was |
| PostService.PostService.constructor | src/services/post_service.py:11-12 | the service holds the given database |
| PostService.PostService.GetPosts | src/services/post_service.py:14-16 | returns the database's page of posts, newest first |
| PostService.PostService.GetTotalPostsCount | src/services/post_service.py:18-20 | returns the number of posts |
| PostService.PostService.MarkPostAsRead | src/services/post_service.py:22-24 | the database's posts become the old ones with that post marked read |
| PostService.PostService.AddPostsFromFeedEntries | src/services/post_service.py:34-76 | the new state is the loop's result; the total is the number of entries and the count added is the number of new rows, at most the total |
| PostService.PostService.AddPostsFromFeed | src/services/post_service.py:26-32 | the state is the ingestion of the parsed entries, with the counts of the entries and of the rows added |
| FeedUtils.PublishedDate | src/utils/feed_utils.py:16-21 | the date is the published time when that is present and non-empty, else the updated time, else none |
| FeedUtils.ImageOf | src/utils/feed_utils.py:31-43 | an empty media list raises; with media the key is the first media item's 'url', or None when it has none; without media, the first content image's src when it is non-empty, else None; the key is set to None when there is neither media nor content |
| FeedUtils.ImageOfMediaWins | src/utils/feed_utils.py:31-38 | with a media item, two entries with the same media get the same image slot, whatever their content |
| FeedUtils.EntryToPost | src/utils/feed_utils.py:23-45 | the record of an entry carries the image slot and publication date above, and building it fails exactly when the image lookup raises |
| FeedUtils.NoDescriptionFallback | src/utils/feed_utils.py:25-26 | `get('description', '')` reads no other field of the entry value it is given: an entry value without a description gives '' |
| FeedUtils.AllPosts | src/utils/feed_utils.py:15-45 | when no entry raises there is one record per entry, in order |
| FeedUtils.AllPostsFails | src/utils/feed_utils.py:48-50 | one entry that raises makes the whole list fail |
| FeedUtils.ParseFeed | src/utils/feed_utils.py:7-50 | a parse failure or an entry that raises yields []; otherwise one record per entry, in order |
| UrlUtils.Absolutize | src/utils/url_utils.py:26-28 | an `http://` or `https://` href is kept; any other is resolved against the page URL |
| UrlUtils.FindFeedUrl | src/utils/url_utils.py:11-41 | a failed request or an HTTP error status gives None |
| UrlUtils.FindFeedUrlNone | src/utils/url_utils.py:21-41 | on a successful response the result is None exactly when no `<link>` has an rss or atom type and no anchor with an href mentions rss or feed |
| UrlUtils.FindFeedUrlLinkFirst | src/utils/url_utils.py:22-29 | the first `<link>` with an rss or atom type decides the result, resolved, whatever the anchors say |
| UrlUtils.FindFeedUrlAnchorNext | src/utils/url_utils.py:31-37 | without such a link, the first anchor whose text mentions rss or feed (any case) decides, resolved |
| UrlUtils.CopiesDiverge | src/utils/url_utils.py:22-37 | on a `text/rss` link and on an anchor labelled RSS, this discovery finds a feed where the scraping dialog's discovery finds none |
| SourceService.Touch | src/services/source_service.py:51-53 | only the last-checked time of that source's row changes |
| SourceService.TouchValid | src/services/source_service.py:51-53 | the update keeps the sources' constraints |
| SourceService.RefetchedProperties | src/services/source_service.py:42-47 | after deleting and re-fetching, the source's posts are all fresh unread rows, and every other source keeps exactly its posts |
| SourceService.SourceService.constructor | src/services/source_service.py:6-8 | the service holds the given database and post service |
| SourceService.SourceService.GetAllSources | src/services/source_service.py:10-12 | returns the active sources |
| SourceService.SourceService.CheckSourceExists | src/services/source_service.py:14-16 | true exactly when the duplicate filter matches a row |
| SourceService.SourceService.AddSource | src/services/source_service.py:18-35 | a duplicate gives (False, 'Source already exists') and no change; without a truthy feed URL the source is inserted; with one, its feed is ingested and success means at least one post was added, else the message is the entry count |
| SourceService.SourceService.RefreshSourcePosts | src/services/source_service.py:37-57 | without a feed URL nothing changes; otherwise the source's posts are replaced by the re-fetch, and only when a post was added is the source's last-checked time updated and success reported |
| ScrapingHandler.FeedUrlOf | src/handlers/scraping_handler.py:14-41 | a request that raises gives None |
| ScrapingHandler.FeedUrlPrecedence | src/handlers/scraping_handler.py:24-38 | the first `<link>` whose type is exactly one of the three feed MIME types decides, whatever the anchors say; the result is None exactly when neither such a link nor an anchor whose href mentions feed, rss or atom exists |
| ScrapingHandler.FindFeedUrls | src/handlers/scraping_handler.py:14-41 | the two loops with early returns compute the discovery value above |
| ScrapingHandler.Host | src/handlers/scraping_handler.py:67 | the source label is the third '/'-separated piece, which holds no '/', or the indexing fails |
| ScrapingHandler.HostOfUrl | src/handlers/scraping_handler.py:67 | for `scheme://host/path` and `scheme://host` the label is the host |
| ScrapingHandler.HostMissing | src/handlers/scraping_handler.py:67 | a URL without '/' has no label, so the indexing raises |
| ScrapingHandler.ExtractPictureLinks | src/handlers/scraping_handler.py:86-93 | with media present the list is the first media item's url, or '' when it has none; an empty media list raises; without media, the first description image's src (or '') when there is one, else the empty list |
| ScrapingHandler.PictureLinksIgnoreDescription | src/handlers/scraping_handler.py:87-88 | with media present the description is never looked at |
| ScrapingHandler.FeedArticle | src/handlers/scraping_handler.py:103-108 | title and link default to '', the description falls back to the summary only when the description key is absent, and the pictures are given |
| ScrapingHandler.FeedArticles | src/handlers/scraping_handler.py:101-110 | one article per entry, in order, exactly when no entry's picture extraction raises |
| ScrapingHandler.ScrapeFeed | src/handlers/scraping_handler.py:97-116 | an unparsable or empty feed gives no articles; otherwise the articles of all the entries, in order, or none at all when one entry raises |
| ScrapingHandler.ScrapeFeedEntries | src/handlers/scraping_handler.py:97-116 | the loop computes the articles above |
| ScrapingHandler.SavedTitle | src/handlers/scraping_handler.py:125 | the saved title is the stripped first line of a non-empty title and '' otherwise; it holds no line break, has no whitespace at either end, and is part of the original title |
| ScrapingHandler.FirstLineTitle | src/handlers/scraping_handler.py:125 | the title's first piece is the text before its first line break, or all of it |
| ScrapingHandler.SavedDescription | src/handlers/scraping_handler.py:127-134 | the description is the article's own when non-empty, otherwise its original title; link and source pass through |
| ScrapingHandler.SavedPicturesRoundTrip | src/handlers/scraping_handler.py:123 | comma-free picture URLs come back out of the stored comma-joined string unchanged |
| ScrapingHandler.SavedNoPictures | src/handlers/scraping_handler.py:123 | an article without pictures is saved with a NULL image list |
| ScrapingHandler.RssFor | src/handlers/scraping_handler.py:53-56 | a URL mentioning rss, atom or feed is its own feed |
| ScrapingHandler.SaveAllAdds | src/handlers/scraping_handler.py:75-76 | saving keeps the earlier rows in place and the table valid, and adds at most one row per article |
| ScrapingHandler.HandleScrapingAdds | src/handlers/scraping_handler.py:51-84 | across the run both tables only grow and stay valid, and the links table gains at most one row per URL |
| ScrapingHandler.SaveArticles | src/handlers/scraping_handler.py:75-76 | the loop saves each article with `save_scraped_article`, in order |
| ScrapingHandler.ScrapeOne | src/handlers/scraping_handler.py:52-82 | the link is saved with the feed found; the articles are saved when the URL has a label, from the feed when one was found and from the page otherwise |
| ScrapingHandler.HandleScraping | src/handlers/scraping_handler.py:45-84 | the tables end as the one-URL-at-a-time results over all URLs, valid |
| ArticleModel.InsertOrIgnoreValid | src/models/article_model.py:25-31 | the insert keeps the UNIQUE constraints and id order; it adds one row when nothing collides and leaves the table alone otherwise; afterwards a row holds the title or url |
| ArticleModel.InsertOrIgnoreIdempotent | src/models/article_model.py:25-31 | saving the same submission twice has the effect of saving it once |
| ArticleModel.UpdateFlag | src/models/article_model.py:33-59 | only the row with that id changes, and only in the one flag the statement sets |
| ArticleModel.ToggleInvolution | src/models/article_model.py:33-38 | with 0/1 flags, toggling twice restores the table, and the flags stay 0 or 1 |
| ArticleModel.UpdateFlagValid | src/models/article_model.py:33-59 | setting or toggling a flag keeps the table valid: ids, titles and URLs are untouched |
| ArticleModel.MarkIdempotent | src/models/article_model.py:40-45 | `read` and `set_favorite` leave the flag at 1 and are idempotent |
| ArticleModel.UpdateUnknownId | src/models/article_model.py:37 | an id that no row has changes nothing |
| ArticleModel.ConvertImageUrls | src/models/article_model.py:61-63 | the empty string gives [], the pieces hold no comma, and joining them gives the string back |
| ArticleModel.ImageUrlsRoundTrip | src/models/article_model.py:61-63 | comma-free URLs whose join is non-empty come back unchanged |
| ArticleModel.ToDict | src/models/article_model.py:72-79 | every column is copied, the flags as their stored 0/1 values; the image list is converted exactly when the stored value is a non-empty string, into comma-free pieces that join back to it, and is otherwise the stored value |
| ArticleModel.ToDictRoundTrip | src/models/article_model.py:72-79 | the record read back from the dictionary (the image list joined with ',') is the original record |
| ArticleModel.NewestFirst | src/models/article_model.py:69 | the rows in reverse, a permutation, in strictly descending id order when ids grow with insertion |
| ArticleModel.Filtered | src/models/article_model.py:113-115 | the rows kept are exactly those matching `is_read = 1 if filter_read else 0`, all rows without a filter |
| ArticleModel.CountMatchesFiltered | src/models/article_model.py:109-134 | the filtered count equals the number of rows the filtered getter pages through |
| ArticleModel.PageOffset | src/models/article_model.py:121 | the first page starts at offset 0 |
| ArticleModel.FilteredPageProperties | src/models/article_model.py:120-134 | a page holds at most `per_page` matching rows of the table in strictly descending id order, and the first page holds every match when they fit |
| ArticleModel.ToDicts | src/models/article_model.py:136-144 | one dictionary per record, in order |
| ArticleModel.Articles.constructor | src/models/article_model.py:6-23 | a fresh table is empty and valid |
| ArticleModel.Articles.SaveArticle | src/models/article_model.py:25-31 | the new table is the INSERT OR IGNORE of the old, valid |
| ArticleModel.Articles.ToggleReadStatus | src/models/article_model.py:33-38 | the new table is the old with the row's read flag toggled, and stays valid |
| ArticleModel.Articles.Read | src/models/article_model.py:40-45 | the new table is the old with the row's read flag set, and stays valid |
| ArticleModel.Articles.ToggleFavoriteStatus | src/models/article_model.py:47-52 | the new table is the old with the row's favourite flag toggled, and stays valid |
| ArticleModel.Articles.SetFavorite | src/models/article_model.py:54-59 | the new table is the old with the row's favourite flag set, and stays valid |
| ArticleModel.Articles.GetArticlesAsDicts | src/models/article_model.py:65-81 | every row as a dictionary, newest id first |
| ArticleModel.Articles.GetTotalArticles | src/models/article_model.py:83-85 | the number of rows |
| ArticleModel.Articles.GetPaginatedArticles | src/models/article_model.py:87-107 | the unfiltered page, as dictionaries |
| ArticleModel.Articles.GetTotalFilteredArticles | src/models/article_model.py:109-118 | the number of rows matching the read filter |
| ArticleModel.Articles.GetFilteredArticles | src/models/article_model.py:120-146 | the filtered page, as dictionaries |
| LinkModel.SaveLinkProperties | src/models/link_model.py:21-25 | saving keeps the constraints; a known link changes nothing; the link is absent afterwards exactly when another row already owns the same feed; otherwise one row with no scrape time is appended |
| LinkModel.UpdateLastScrapped | src/models/link_model.py:27-31 | exactly the rows holding that link get the new scrape time |
| LinkModel.UpdateLastScrappedProperties | src/models/link_model.py:27-31 | the update keeps the constraints and the links and feeds as they were; an unknown link changes nothing |
| LinkModel.GetAllLinks | src/models/link_model.py:33-34 | one (link, rss_link, last_scrapped_at) tuple per row, in insertion order |
| LinkModel.ClearThenSave | src/models/link_model.py:36-37 | after clearing the table is empty, and a link saved later gets an id above every earlier one |
| LinkModel.Links.constructor | src/models/link_model.py:7-19 | a fresh table is empty and valid |
| LinkModel.Links.SaveLinkRow | src/models/link_model.py:21-25 | the new table is the INSERT OR IGNORE of the old, valid |
| LinkModel.Links.UpdateLastScrappedAt | src/models/link_model.py:27-31 | the new table is the scrape-time update of the old, valid |
| LinkModel.Links.GetAll | src/models/link_model.py:33-34 | the tuple of every row, in table order |
| LinkModel.Links.Clear | src/models/link_model.py:36-37 | the new table is empty and keeps its id counter |
| ChatModel.ByArticle | src/models/chat_model.py:31-34 | the rows kept are exactly the article's rows, in table order |
| ChatModel.SaveChatExtendsHistory | src/models/chat_model.py:24-28 | saving appends the message to that article's conversation, leaves every other conversation unchanged, and keeps the table valid |
| ChatModel.ToDict | src/models/chat_model.py:35-36 | the dictionary has exactly the six column names as keys |
| ChatModel.DictRoundTrip | src/models/chat_model.py:35-36 | every column lands under its own name, so the row can be read back from its dictionary |
| ChatModel.Chat.constructor | src/models/chat_model.py:7-22 | a fresh table is empty and valid |
| ChatModel.Chat.Save | src/models/chat_model.py:24-28 | the new table is the old with the message appended, valid |
| ChatModel.Chat.GetChatsByArticle | src/models/chat_model.py:30-36 | one dictionary per row of the article, in order, each reading back as that row |
| ChatModel.Chat.Clear | src/models/chat_model.py:38-39 | the new table is empty and keeps its id counter |
| UserModel.Without | src/models/user_model.py:21 | the REPLACE deletes exactly the rows holding the name, and no more |
| UserModel.GetUserTokenFinds | src/models/user_model.py:25-29 | in a table of distinct names the lookup returns the token of the row holding the name |
| UserModel.GetUserTokenMissing | src/models/user_model.py:28-29 | an unknown name gives None |
| UserModel.WithoutValid | src/models/user_model.py:21 | deleting rows keeps ids increasing and names distinct |
| UserModel.WithoutKeeps | src/models/user_model.py:21 | a row with another name survives the delete |
| UserModel.AddUserProperties | src/models/user_model.py:19-23 | after INSERT OR REPLACE the table is valid, the name maps to the new token even when it held another, and every other name keeps its token |
| UserModel.Users.constructor | src/models/user_model.py:4-17 | a fresh table is empty and valid |
| UserModel.Users.Add | src/models/user_model.py:19-23 | the new table is the INSERT OR REPLACE of the old, valid |
| UserModel.Users.Token | src/models/user_model.py:25-29 | the token of the row holding the name, or None when there is none |
| PostModel.DeletePostSelects | src/models/post.py:22-23 | deleting a post removes it and every chat history and LinkedIn post of it, and keeps every other post with all its children |
| PostModel.DeletePostValid | src/models/post.py:22-23 | after the delete no child is left without its post, and external links stay unique |
| PostModel.HistoriesKeepParents | src/models/post.py:22 | every remaining chat history still belongs to a remaining post |
| PostModel.DraftsKeepParents | src/models/post.py:23 | every remaining LinkedIn post still belongs to a remaining post |
| PostModel.KeepUnique | src/models/post.py:14 | keeping some posts keeps external links unique |
| PostModel.DeleteLeavesNoChildren | src/models/post.py:22-23 | after the delete the post's relationship collections are empty |
| LinkedInService.ContentFor | src/services/linkedin_service.py:21 | the description unless it is None or empty, else the summary |
| LinkedInService.FindDraft | src/services/linkedin_service.py:68-69 | a row with that id from the table, or None exactly when no row has it |
| LinkedInService.FindDraftAt | src/services/linkedin_service.py:68-69 | with unique increasing ids, the lookup of a row's id finds that row |
| LinkedInService.FindAfterUpdate | src/services/linkedin_service.py:68-73 | an update keeps ids, finds the updated row under its id, changes nothing for an unknown id, and leaves every other id's row |
| LinkedInService.EditProperties | src/services/linkedin_service.py:66-74 | editing sets the content and the 'draft' status, also on a published post, keeps the published time, and an unknown id changes nothing and returns None |
| LinkedInService.PublishProperties | src/services/linkedin_service.py:76-84 | publishing sets 'published' and the time and keeps the content; an unknown id changes nothing and returns None |
| LinkedInService.PostHistoryProperties | src/services/linkedin_service.py:42-47 | the history holds exactly the post's rows, newest first |
| LinkedInService.PostDraftsProperties | src/services/linkedin_service.py:59-64 | the LinkedIn posts returned are exactly the post's, newest first |
| LinkedInService.GenerationLog | src/services/linkedin_service.py:18-38 | the two log rows of a generation extend that post's log and no other |
| LinkedInService.LinkedInService.constructor | src/services/linkedin_service.py:10-12 | the service starts with no history and no LinkedIn posts |
| LinkedInService.LinkedInService.SaveChatHistory | src/services/linkedin_service.py:49-57 | exactly one history row is appended, and the LinkedIn posts are unchanged |
| LinkedInService.LinkedInService.GenerateLinkedInPost | src/services/linkedin_service.py:14-40 | the result is the generator's output for the title and content; the log gains the system row then the assistant row, the result is stored as a new draft, and the ids advance by two and one |
| LinkedInService.LinkedInService.GetPostHistory | src/services/linkedin_service.py:42-47 | the post's history, newest first |
| LinkedInService.LinkedInService.GetLinkedInPosts | src/services/linkedin_service.py:59-64 | the post's LinkedIn posts, newest first |
| LinkedInService.LinkedInService.UpdateLinkedInPost | src/services/linkedin_service.py:66-74 | the found row gets the content and the 'draft' status and is returned; an unknown id returns None and changes nothing; no id is used up |
| LinkedInService.LinkedInService.PublishLinkedInPost | src/services/linkedin_service.py:76-84 | the found row becomes 'published' with the time and is returned; an unknown id returns None and changes nothing; no id is used up |
| BaseMigration.MigrateRecords | src/migrations/base_migration.py:43-57 | a first run appends exactly one row for the name, successful iff `_execute` returned, reports completion or re-raises the error, and keeps names unique |
| BaseMigration.MigrateOnce | src/migrations/base_migration.py:26-47 | once a migration has been attempted, a second run changes nothing and reports it already executed, even when the first run failed |
| BaseMigration.BaseMigrationFails | src/migrations/base_migration.py:59-61 | the base class's own `_execute` fails with its message and the failure is recorded |
| BaseMigration.Migrations.constructor | src/migrations/base_migration.py:14-24 | the migrations table starts empty |
| BaseMigration.Migrations.IsMigrationExecuted | src/migrations/base_migration.py:26-32 | true exactly when some row carries the name |
| BaseMigration.Migrations.MarkMigrationExecuted | src/migrations/base_migration.py:34-41 | exactly one row with the name and outcome is appended under the next id |
| BaseMigration.Migrations.Migrate | src/migrations/base_migration.py:43-57 | the new table and the result are those of the run-once rule, and the table stays well formed |
| RunMigrations.ExclusionRedundant | src/migrations/run_migrations.py:15-17 | an entry is kept exactly when it ends in '.py' and has the fourteen-digit prefix; the exclusion list never changes the outcome |
| RunMigrations.Stems | src/migrations/run_migrations.py:14-18 | every stem comes from a kept entry of the listing, and every kept entry's stem is there |
| RunMigrations.GetMigrationFiles | src/migrations/run_migrations.py:9-21 | the stems of the kept entries, sorted ascending, as a permutation of them |
| RunMigrations.MigrationFilesProperties | src/migrations/run_migrations.py:9-21 | the sorted list is ordered and holds exactly the stems of the kept entries |
| RunMigrations.DisplayName | src/migrations/run_migrations.py:42 | the name after the fifteen-character prefix, or the whole name when it is no longer than that |
| RunMigrations.DisplayNameOfStem | src/migrations/run_migrations.py:17-42 | for a migration stem the display name is what follows its timestamp prefix |
| RunMigrations.Planned | src/migrations/run_migrations.py:25-35 | no files means nothing to run; a truthy name not among the files is not found; a found name runs alone; otherwise all files run |
| RunMigrations.RunAllOrder | src/migrations/run_migrations.py:39-53 | migrations start in list order, all of them when none raises, and nothing after the first one that raises |
| RunMigrations.RunAllFailure | src/migrations/run_migrations.py:51-53 | the migration that stopped the run had not run before, raised, and the message names it by its display name with its error |
| RunMigrations.RunAllRecords | src/migrations/run_migrations.py:39-53 | a run keeps the table well formed, only appends rows, and every started migration is on record |
| RunMigrations.RunAllRecorded | src/migrations/run_migrations.py:39-49 | when every migration is on record a run changes nothing and completes |
| RunMigrations.RerunIsNoOp | src/migrations/run_migrations.py:39-49 | running again after a completed run changes nothing and completes |
| RunMigrations.FailureNotRetried | src/migrations/base_migration.py:45-57 | after a failed run the failed migration is on record, so it is never executed again |
| RunMigrations.Migrate | src/migrations/20231203220000_create_sources_table.py:24-26 | a migration module's `run()` is one run-once step on the migrations table |
| RunMigrations.RunFiles | src/migrations/run_migrations.py:39-53 | the loop's table, started modules and error are those of the specification of the whole run |
| RunMigrations.RunMigrations | src/migrations/run_migrations.py:23-53 | the plan is computed from the sorted migration files; without files to run nothing changes; otherwise the outcome is that of the run over the plan |
| WebScraper.MinifyHtml | web_scraper.py:56-75 | falsy content (None or '') comes back as it is; other content gives a string |
| WebScraper.MinifyHtmlProperties | web_scraper.py:66-73 | the minified text is trimmed, every whitespace in it is a single ' ' between non-space characters, it holds no ' >' and no '< ', and it keeps every non-whitespace character of the content, in order |
| WebScraper.MinifyKeepsNonSpace | web_scraper.py:66-73 | collapsing the whitespace and the three replacements drop only whitespace |
| WebScraper.CollapsedGapsJoined | web_scraper.py:66-69 | after the first replacement no '> <' is left in the collapsed text |
| WebScraper.First | web_scraper.py:142 | `select_one` is the first match, None exactly when there is none |
| WebScraper.FirstContent | web_scraper.py:141-144 | the result is the first match of the first selector in order that matches anything (a found tag is always truthy), and None only when no selector matches |
| WebScraper.Absolute | web_scraper.py:176-178 | an href starting with 'http://' or 'https://', or a falsy one, is kept; any other is joined with the page URL |
| WebScraper.TitlesAndLinksProperties | web_scraper.py:162-182 | one entry per title element in order, titled with its stripped text; the link is None when no link element is found and the absolute href otherwise; the call raises exactly when a link element lacks an href |
| WebScraper.TitlesAndLinksFails | web_scraper.py:166-180 | once one element raises, the whole call raises |
| WebScraper.WebScraper.constructor | web_scraper.py:6-8 | the scraper keeps its URL and has no page yet |
| WebScraper.WebScraper.FetchContent | web_scraper.py:88-118 | a successful fetch stores the page and returns it; a failed one returns None and keeps the old page |
| WebScraper.WebScraper.GetMainContent | web_scraper.py:120-147 | None before a fetch; otherwise the first match of the first selector in the fixed order that matches, else the body |
| WebScraper.WebScraper.SelectFirst | web_scraper.py:141-144 | the loop returns the `select_one` match of the first selector that matches, None when no selector matches |
| WebScraper.WebScraper.GetElementsBySelector | web_scraper.py:149-153 | [] before a fetch; otherwise the page's matches |
| WebScraper.WebScraper.GetTitlesAndLinks | web_scraper.py:162-182 | [] before a fetch; otherwise the entries of the title elements as specified above |
| LinkedInPostDialog.IsRtl | src/ui/linkedin_post_dialog.py:55-58 | true exactly when some character of the text lies in one of the six Hebrew and Arabic ranges of the pattern |
| LinkedInPostDialog.IsRtlEmpty | src/ui/linkedin_post_dialog.py:55-58 | the empty text is not right-to-left |
| LinkedInPostDialog.IsRtlInside | src/ui/linkedin_post_dialog.py:55-58 | a text that contains a right-to-left text is right-to-left |
| LinkedInPostDialog.KeyPoints | src/ui/linkedin_post_dialog.py:222 | the description when it has at most 200 characters, else its first 200 and '...' (203 characters) |
| LinkedInPostDialog.DefaultPost | src/ui/linkedin_post_dialog.py:217-225 | the default draft exists exactly when the description is not None |
| LinkedInPostDialog.DefaultPostBlocks | src/ui/linkedin_post_dialog.py:217-225 | the draft is the title line, the key-points heading, the key points, the read-more line and the hashtags, separated by blank lines |
| LinkedInPostDialog.DefaultPostEnds | src/ui/linkedin_post_dialog.py:217-225 | the draft starts with the Arabic prefix and the title on a line of its own and ends with the hashtag line |
| LinkedInPostDialog.DefaultPostLines | src/ui/linkedin_post_dialog.py:221-223 | the key points stand on a line of their own and the URL follows the read-more prefix |
| LinkedInPostDialog.DefaultPostRtl | src/ui/linkedin_post_dialog.py:175-225 | the default draft is always shown right to left |
| LinkedInPostDialog.DraftFor | src/ui/linkedin_post_dialog.py:148-153 | an even assistant count gives the Arabic prefix and the title, an odd one the English prefix and the title |
| LinkedInPostDialog.DraftDirection | src/ui/linkedin_post_dialog.py:150-176 | the Arabic draft is right to left; the English draft is right to left exactly when the title is |
| LinkedInPostDialog.Dialog.constructor | src/ui/linkedin_post_dialog.py:93-97 | a fresh dialog has no history and the default draft as its post |
| LinkedInPostDialog.Dialog.OnUserInput | src/ui/linkedin_post_dialog.py:133-153 | the user message and then the fixed assistant reply are appended, and the draft follows the parity of the new assistant count |
| LinkedInPostDialog.Dialog.CountAssistants | src/ui/linkedin_post_dialog.py:149 | the number of assistant messages in the history |
| LinkedInPostDialog.AssistantCountAfterInput | src/ui/linkedin_post_dialog.py:136-149 | each user message adds exactly one assistant message to the count |
| LinkedInPostDialog.AlternatingLanguage | src/ui/linkedin_post_dialog.py:133-153 | after n messages into a fresh dialog the count is n, so the draft is English after an odd number of messages and Arabic after an even one |
| Components.CeilDivProperties | src/ui/components.py:193-195 | the page count is the least number of twelve-item pages that hold all items, and zero exactly when there are none |
| Components.ItemRange | src/ui/components.py:120-121 | on an existing page the shown item range is non-empty and lies within 1..total |
| Components.PageButtons | src/ui/components.py:139-152 | min(total pages, 7) buttons numbered from 1, the one of the current page drawn primary |
| Components.PaginationControlsProperties | src/ui/components.py:119-170 | Previous is offered exactly after the first page and Next exactly before the last; every button leads to an existing page; one button is primary exactly when the current page has one |
| Components.ResetPage | src/ui/components.py:197-199 | a page past the last goes back to 1; any other page is kept |
| Components.ResetPageInRange | src/ui/components.py:197-199 | after the reset a page of at least 1 lies within the pages whenever there is one |
| Components.FavoritesTabAsWritten | src/ui/components.py:180-184 | as written, the Favorites filter value reads as `filter_read` true: the tab lists exactly what the Read tab lists and leaves out an unread favourite |
| Components.TabRows | src/ui/components.py:180-194 | the rows of a tab are exactly the rows that belong to it; the All tab keeps every row |
| Components.ReadTabAgrees | src/ui/components.py:182-194 | the Read tab lists the same rows under the written and the corrected filter |
| Components.ArticleGrid.constructor | src/ui/components.py:176-177 | the page starts at 1 |
| Components.ArticleGrid.ShowTab | src/ui/components.py:188-208 | with the filter value of the tab read as `filter_read` (Favorites therefore selects the read rows): the count and page count, the page after the reset, and that page of the selected rows, newest first, twelve to a page |
| Components.ArticleGrid.GoTo | src/ui/components.py:134-169 | a pagination click sets the page it leads to |
| Components.TabViewFilled | src/ui/components.py:195-211 | a tab whose filter selects rows shows an existing page holding between one and twelve of the selected rows |
| Components.CardText | src/ui/components.py:260-266 | the card text is the description's text without 'Read more', stripped, and cut to at most 200 characters |
| PostList.TotalPages | src/components/post_list.py:7-28 | the page count is the least number of ten-post pages that hold all posts, and zero exactly when there are none |
| PostList.Rendered | src/components/post_list.py:15-25 | nothing is fetched exactly when there are no posts; otherwise the page of posts at the slider's offset |
| PostList.PagesCoverPosts | src/components/post_list.py:28-44 | every page the slider offers holds one to ten posts, and the post at place k of the newest-first order is at place k mod 10 of page k div 10 + 1 |
| PostList.Description | src/components/post_list.py:110-112 | no description is shown for a falsy one; otherwise the cleaned text, cut to 300 characters and '...' when longer |
| PostList.PostList.constructor | src/components/post_list.py:12-13 | the list keeps the post service it is given |
| PostList.PostList.Render | src/components/post_list.py:15-44 | the result is what the page shows for the current posts and the slider's page |
| PostList.PostList.ReadPost | src/components/post_list.py:118-121 | a read post leaves the store unchanged; an unread one is marked read at that time; the store stays well formed |
| PostList.FirstReadStays | src/components/post_list.py:118-121 | marking an unread shown post records it read at that time and changes no other post |

## Left out

- HTTP requests, BeautifulSoup parsing and tree surgery (`clean_content`, the cleaning and narrowing in `fetch_content`, `getText`, `clean_html`), `feedparser.parse`, `urljoin` and `validators.url` are foreign libraries. They appear as inputs or function-typed parameters: a `Dom` of query functions, a tag list, a list of entries, a `UrlJoin` function, a response that may be an error.
- `validate_url` (in `src/utils.py` and `src/utils/url_utils.py`) only calls `validators.url`, so it is not modelled.
- The clock (`datetime.utcnow`, `datetime.now`, `time.mktime`, `datetime.fromtimestamp`) becomes a `now` parameter: one value for all the clock readings of one call. Times are whole numbers; local-time conversion and floating-point seconds are not modelled.
- `ORDER BY ... DESC` leaves the order of equal keys to SQLite. The model keeps ties in insertion order.
- Regular expression `\d` becomes the ASCII digits ('0' to '9'); Python also accepts other Unicode decimal digits. `.lower()` becomes ASCII lowering, which gives the same answer for the 'rss' and 'feed' tests.
- SQL execution, sessions and connections (src/database/db_connection.py) are replaced by the in-memory tables. A failing commit is modelled only where the source catches it: the IntegrityError of the post insert. Other database failures are not modelled.
- The `except` branch of `add_posts_from_feed` cannot be reached in the model, because `parse_feed` catches every exception itself.
- The `ValueError` branch of `SourceService.add_source` cannot be reached after `check_source_exists` has returned false, so the model has `assert false` there.
- `add_posts_from_feed` returns the pair (added, total). `SourceService.add_source` reads that pair as "success iff added > 0" and returns the total as its message. The model follows the code, not a (bool, message) reading.
- `delete_posts_by_source` deletes posts only. src/models.py declares no cascade from Source to Post, so no cascade is modelled. There is no `delete_source` in the service.
- Migration modules are found by name and imported (`importlib.import_module`), and each `run()` builds its migration class. Here that is a parameter mapping a file to its class name, plus a parameter giving each `_execute` outcome. The DDL the migrations execute is not modelled, and neither is `sys.exit(1)`: the run instead returns the error message it prints before exiting.
- Printing and logging are not modelled. Where a message is the only trace of an outcome, the model returns it.
- `WebScraper.clean_content`, `clean_and_minify_content`, `save_content_to_file`, `get_text_from_elements` and `get_nested_text` are parsing, tree surgery, file I/O or direct calls into BeautifulSoup, so they are not modelled. `fetch_content` takes the page it would produce as an input.
- Streamlit rendering is left out: columns, images, markdown, CSS, dialogs, toasts, text areas, spinners and `st.rerun`. So are article cards' image and date display, `show_post_dialog`, and the title and metadata lines of `PostList._render_posts`. Only the arithmetic, the session-state updates and the guarded calls are modelled.
- `st.select_slider` only returns one of the pages it offers. `PostList.PostList.Render` therefore requires a page in range whenever there are posts.
- `math.ceil(total / per_page)` works on a float in the source; the model uses the integer ceiling, which agrees for every count a table can hold.
- `get_ai_response`, the LLM crews and the generator that `LinkedInService.generate_linkedin_post` calls are foreign calls. The generator is a parameter.
- The text-area edit of the dialog's draft (`st.text_area`) is user input; the model has no operation for it.
- LinkedInPostDialog.DefaultPost: with a None description, `len(article['description'])` raises TypeError. The model returns None and does not model the exception further.
- LinkedInPostDialog.Dialog.constructor: models the first opening of the dialog in a session, when neither `chat_history` nor `final_post` is in the session state. A re-opening keeps both as they are and is not modelled.
- WebScraper.TitlesAndLinksProperties: a link element without an `href` raises KeyError in the source. The model reports it as None for the whole call, without the exception's text.

## Findings

| source | as written | input that shows it | evidently intended | confidence | as-written member | corrected member |
|---|---|---|---|---|---|---|
| src/ui/components.py:180-184 | The Favorites tab passes the filter value 'favorites' as `filter_read` to `get_total_filtered_articles` and `get_filtered_articles` (src/models/article_model.py:109-134). A non-empty string is truthy, so the tab selects `is_read = 1`, the same rows as the Read tab. | An article with `is_read` 0 and `is_favorite` 1 is not listed under Favorites, and every read article that is not a favourite is. | The Favorites tab lists exactly the rows with `is_favorite = 1`. | not executed | Components.FavoritesTabAsWritten | Components.TabRows |
