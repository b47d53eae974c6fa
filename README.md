# download-twitter-resources, modelled in Dafny

This project models the core of `download-twitter-resources`. The tool walks a Twitter user's
timeline page by page and picks the photo and video URLs out of every tweet. It queues one
download per media file that is not yet on disk. It authenticates in one of two ways: a Bearer
token (application mode) or an OAuth 1.0a HMAC-SHA1 signed header (private mode).

The modules follow the three source files:

- `Downloader` (`downloader.dfy`) models `downloader.py`:
  - the save plan of one media URL (`save_media`), covering the file extension, the `:size`
    suffix and the skip-if-existing rule;
  - `process_tweet`, which numbers the media `{id_str}-1`, `{id_str}-2`, and so on;
  - the post-processing `get_tweets` applies to an API answer;
  - the paging loop of `download_images_of_user`.

  The class `Downloader.Downloader` holds the state the Python object updates in place: the
  cursor `last_tweet`, the download queue and the file system.
- `Media` (`media.dfy`) models `extract_media_list`:
  - the photo and video branches;
  - the stable sort of a video's variants by bitrate, which is done in place;
  - the `?tag` cut of the chosen URL.
- `Auth` (`auth.dfy`) models `auth.py`:
  - the Basic credential and the result handling of `bearer`;
  - the OAuth 1.0a helpers: parameter string, signature base, signing key, signature
    truncation, header dictionary and header string;
  - `auth_headers`, and the class `Auth.TwitterAuth` with its constructor.

  `OAuthFields` (`oauth_fields.dfy`) holds the seven OAuth header names and proves their sorted
  order.
- `AsyncExecutor` (`async_executor.dfy`) models `async_executor.py`:
  - `get_proxy`;
  - `prepare_dir`, over a file system of directory paths and file paths (class
    `AsyncExecutor.FileSystem`);
  - what one `AsyncDownloader.download` does once its HTTP response is known.
- `Text` and `PosixPath` model the string and `os.path` functions the code relies on:
  - `startswith` and `endswith`;
  - `rsplit(sep)[0]` without a limit, modelled as the text before the first separator. The
    two agree only for a separator whose occurrences cannot overlap, which holds for the one
    separator the code uses, `?tag`;
  - `upper` on ASCII;
  - `sorted` on string keys (code-point order);
  - `os.path.dirname`, `os.path.join` and `os.path.splitext`.

Modelling choices:

- Everything the program gets from the outside becomes a parameter:
  - Twitter's answers: the timeline API is a function from a `Request` to an `ApiResponse`;
  - the process environment, as a map;
  - the HTTP response of a download;
  - the nonce and the timestamp of an OAuth header.
- The library functions the model cannot see are fields of `Auth.Primitives`, an arbitrary
  value. These are base64, HMAC-SHA1, UTF-8 encoding, `quote_plus`, `json.dumps` and the path
  part of `urlparse`.
- Exceptions the code raises become `Err`/`Fail` values, and the state at the moment of raising
  is kept. Examples:
  - `IndexError` on an empty variant list;
  - `InvalidDownloadPathError`;
  - `BearerTokenNotFetchedError`;
  - the `TypeError` of signing with the numeric pin-stub secret;
  - the `NameError` of the misspelt `resonse` on a non-200 download.

The paging loop of `download_images_of_user` needs no fuel. Each processed page is non-empty
and adds its length to the count of checked tweets, so `limit - checked` decreases.
`Downloader.Pages` is the reference definition of the pages the loop fetches, and
`Downloader.RunSpec` folds `process_tweet` over them, stopping at the first tweet that raises.
The loop method `Downloader.Downloader.ProcessTimeline` is proved to reach the directories,
queue, cursor and outcome of that fold. It returns the pages it processed: all of `Pages` on
success, a prefix of them when a tweet raises.

The run follows the entry check as written (`Downloader.EntryCheck`, which prepares
`save_dest` itself and so only its dirname), and `Downloader.DownloadSpec` is the reference
definition of a whole run. The corrected entry check (`Downloader.EntryCheckCorrected`) is
stated and proved beside it; see Findings.

The video choice follows the code. `sort` is stable and the code takes `variants[-1]`, so of
several variants that share the greatest bitrate the LAST one is chosen (`Media.IsLastMax`).
The program's written description says the first one is chosen.

The code passes no `size` from `download_images_of_user` to `process_tweet`. So every media
file of a timeline run is saved in the default size `large`, and
`Downloader.Downloader.ProcessPage` passes `"large"`.

`signSignature` drops the last character of the base64 signature. Its comment speaks of a
newline, but `b64encode` adds none. The model drops the last character as the code does
(`Auth.SignSignature`).

## Model

| member | source | states |
|---|---|---|
| Downloader.SavePlan | download_twitter_resources/downloader.py:200-208 | No task exactly when the URL is empty. The destination ends with the name plus the URL's extension. The fetched URL is the media URL itself when the extension is `.mp4`, and the media URL followed by `:` and the size otherwise. |
| Downloader.SaveMediaEnqueuesOnlyNew | download_twitter_resources/downloader.py:200-214 | `save_media` only adds directories. It enqueues nothing or exactly its planned task, and only when the destination is neither an existing file nor a directory; an existing file is always skipped and an empty URL changes nothing. Conversely, a failing `prepare_dir` raises with the state unchanged, and a prepared destination that is neither a file nor a directory is always enqueued. |
| Downloader.Downloader.SaveMedia | download_twitter_resources/downloader.py:191-214 | The new directories and queue are those of the save plan after preparing the destination's directory. Files and the cursor are unchanged. A failing `prepare_dir` is reported as the error. |
| Downloader.DecimalInjective | download_twitter_resources/downloader.py:69 | Two numbers with the same decimal text are equal. |
| Downloader.MediaNamesDistinct | download_twitter_resources/downloader.py:68-69 | Media `i` and `j` of one tweet get the same file name (for any two extensions) only when `i == j`. |
| Downloader.SaveAllQueuesPlansInOrder | download_twitter_resources/downloader.py:67-69 | Saving a tweet's media in order keeps the old queue as a prefix. It appends a subsequence of the planned tasks `{id_str}-1`, `{id_str}-2`, ... in their order, and no appended task's destination is an existing file. |
| Downloader.SaveAllQueuesAllPlans | download_twitter_resources/downloader.py:67-69 | Conversely, when the saves of a tweet raise nothing and none of the planned destinations is a file or a directory, the queue grows by exactly the planned tasks `{id_str}-1`, `{id_str}-2`, ... in order. |
| Downloader.Downloader.SaveAll | download_twitter_resources/downloader.py:68-69 | The loop over the media reaches the state of saving each media in turn, stopping at the first error. |
| Downloader.Downloader.ProcessTweet | download_twitter_resources/downloader.py:64-71 | On success it returns the number of media URLs and the cursor becomes the tweet's id, even with no media. When extraction or a save raises, the cursor is unchanged and the state reached so far is kept. |
| Downloader.TimelineRequest | download_twitter_resources/downloader.py:114-116 | `max_id` is sent exactly when the cursor is truthy (present and non-zero), and then equals it. The screen name, count and retweet flag are passed unchanged. |
| Downloader.PageOfShape | download_twitter_resources/downloader.py:122-134 | A page is a suffix of the tweets received. It is empty on a non-200 status or a single tweet. Otherwise it is all of them, less the first when a cursor was sent. |
| Downloader.SingleTweetPageEndsRun | download_twitter_resources/downloader.py:122-125 | A first answer of exactly one tweet, or any status other than 200, ends the run with no page processed. |
| Downloader.PagesStopAtLimit | download_twitter_resources/downloader.py:48-58 | Every processed page is non-empty, and each was started with fewer than `limit` tweets checked. The total checked stays below `limit` plus the size of the last page. |
| Downloader.Downloader.ProcessPage | download_twitter_resources/downloader.py:54-56 | The directories, the queue and the cursor after a page are those of `PageSpec`, processing each tweet in order in size `large` and stopping at the first that raises, whose error is returned. When all succeed, the cursor is the id of the page's last tweet. |
| Downloader.Downloader.ProcessTimeline | download_twitter_resources/downloader.py:48-58 | The directories, the queue, the cursor and the outcome are those of `RunSpec` over the pages `Pages` defines from the current cursor (the first request with the `rts` flag, later ones without). On success the returned pages are exactly those pages; when a tweet raises they are a prefix of them. |
| Downloader.Downloader.PageLoop | download_twitter_resources/downloader.py:53-58 | The loop ends in the state of the run's fold `goal` with its error, having processed all the pages on success and a prefix of them otherwise. |
| Downloader.Downloader.ProcessAndFetch | download_twitter_resources/downloader.py:54-58 | One turn of the loop: processing the page either stops the run in the fold's final state with its error, or leaves the fold of the remaining pages to do, fetched from the new cursor `last_tweet` without retweets. |
| Downloader.Downloader.DownloadImagesOfUser | download_twitter_resources/downloader.py:30-58 | The directories, the queue, the cursor and the outcome are those of `DownloadSpec`: the entry check as written (`prepare_dir(save_dest)` unless `save_dest` is a directory), whose failure raises `InvalidDownloadPath` with nothing changed and no page fetched, then the run over `Pages`. |
| Downloader.BareSaveDestRejectedAsWritten | download_twitter_resources/downloader.py:42-46 | As written, a bare relative destination such as `pics` that is not yet a directory has the empty dirname, so the entry check fails with `FileNotFoundError`. |
| Downloader.BareSaveDestRunRejected | download_twitter_resources/downloader.py:42-46 | As written, the whole run with such a destination raises `InvalidDownloadPathError` and changes nothing: no directory, no task, the cursor unchanged. |
| Downloader.SaveDestDirPrepared | download_twitter_resources/downloader.py:42-46 | The corrected entry check prepares `save_dest + "/"`, whose directory is `save_dest` itself. On success `save_dest` is a directory (or `save_dest/` already was), and it fails only when one of the paths to create is a file, so a bare relative name works. |
| Downloader.RunSpecGrows | download_twitter_resources/downloader.py:48-58 | A run, whole or stopped by a tweet that raises, only adds directories and only appends to the queue. |
| Downloader.PageSpecGrows | download_twitter_resources/downloader.py:54-56 | So does a page. |
| Downloader.RunSpecCursor | download_twitter_resources/downloader.py:53-58 | A run over non-empty pages that raises nothing leaves `last_tweet` at the id of the last tweet of the last page. |
| Downloader.PageSpecCursor | download_twitter_resources/downloader.py:54-56 | A page that raises nothing leaves `last_tweet` at its last tweet's id. |
| Downloader.NewPhotoQueued | download_twitter_resources/downloader.py:64-70 | A tweet with one photo `x.jpg` saved into an existing directory `path` queues exactly `(x.jpg:large, path/{id_str}-1.jpg)` when that destination is new, and moves the cursor to the tweet. |
| Downloader.PhotoPageQueuesAll | download_twitter_resources/downloader.py:54-56 | A page of such tweets appends exactly their tasks to the queue, in order, creates no directory and leaves the cursor at the last tweet. |
| Downloader.ThreePhotoTweets | download_twitter_resources/downloader.py:54-56 | Three such tweets give exactly the three tasks `{path}/{id}-1.jpg`, in order, with the cursor at the third tweet. |
| Media.SortByBitrate | download_twitter_resources/downloader.py:182 | The sort keeps the variants: same multiset, same length. |
| Media.SortByBitrateSorted | download_twitter_resources/downloader.py:182 | The result is ordered by bitrate, with a missing bitrate counting as 0. |
| Media.SortedLastIsLastMax | download_twitter_resources/downloader.py:182-183 | The last element after the stable sort is the last of the variants of greatest bitrate. |
| Media.VideoUrlChoice | download_twitter_resources/downloader.py:181-183 | A video's URL is the last greatest-bitrate variant's URL cut before its first `?tag`. It is a prefix of that URL and contains no `?tag`. |
| Text.BeforeFirst | download_twitter_resources/downloader.py:183 | `rsplit(sep)[0]` is a prefix of the text that contains no `sep`, and is either the whole text or followed by `sep`. |
| Media.ContributingIndices | download_twitter_resources/downloader.py:174-184 | The entries that add a URL (photos, and videos or GIFs when videos are included), in strictly increasing order, none missing. |
| Media.MediaUrlsInSourceOrder | download_twitter_resources/downloader.py:174-189 | The list holds exactly one URL per contributing entry, in the entries' order, so never more URLs than entries. |
| Media.ContributionAgrees | download_twitter_resources/downloader.py:176-184 | An entry that raises nothing adds a URL exactly when it contributes: its `media_url` for a photo, its chosen variant for a video. |
| Media.PhotosOnlyWithoutVideo | download_twitter_resources/downloader.py:176-180 | Without videos the result is exactly the photos' `media_url`s, and nothing raises. |
| Media.NoExtendedEntitiesNoMedia | download_twitter_resources/downloader.py:170-174 | A tweet without (truthy) `extended_entities`, or without `media` in them, yields the empty list. |
| Media.ErrorPropagates | download_twitter_resources/downloader.py:175-183 | Once an entry raises (a video with no variants), the whole extraction raises that error. |
| Media.ExtractMediaList | download_twitter_resources/downloader.py:162-189 | The loop yields the URLs above or the first error. On success the tweet's media entries are left with their variants sorted, and the rest of the tweet is unchanged. |
| Media.ExtractEntries | download_twitter_resources/downloader.py:175-184 | The loop over the entries yields the URL list. On success each entry is replaced by its sorted form, position by position. |
| Media.ExtractEntry | download_twitter_resources/downloader.py:176-184 | One entry's step agrees with its contribution and its in-place sort. |
| PosixPath.SplitExt | download_twitter_resources/downloader.py:202 | The root and the extension concatenate to the path. The extension is empty or starts with a dot and holds no slash. |
| PosixPath.ExtAfterLastDot | download_twitter_resources/downloader.py:202 | For a root ending in neither a dot nor a slash and a tail with neither, `splitext(root + "." + tail)` is `(root, "." + tail)`. |
| PosixPath.DirnameOfJoin | download_twitter_resources/downloader.py:203 | The directory of `join(dir, leaf)`, for a leaf without a slash, is `dir` without trailing slashes. |
| AsyncExecutor.PrepareDirTarget | download_twitter_resources/downloader.py:203-210 | Preparing a save destination `join(dir, leaf)` makes `dir` (stripped of trailing slashes) a directory. |
| Auth.BasicCredentialRoundTrip | download_twitter_resources/auth.py:47-53 | The Authorization header is `Basic ` followed by a credential that decodes back to the UTF-8 bytes of `key:secret`. |
| Auth.BearerToken | download_twitter_resources/auth.py:61-64 | The token is returned exactly on status 200 and is the `access_token` field. Any other status is `BearerTokenNotFetchedError`. |
| Auth.ParamStringEnds | download_twitter_resources/auth.py:119-126 | No parameters give the empty string. Otherwise the parameter string starts with the least key and `=`, and ends with the JSON text of the greatest key's value. |
| Auth.SignatureBaseForRequest | download_twitter_resources/auth.py:119-134 | The loop builds the `&`-joined `key=json` pieces in sorted key order. It returns the upper-cased method, the quoted URL and the quoted parameter string joined by `&`. |
| Auth.WriteParamString | download_twitter_resources/auth.py:120-126 | The loop's text is the join with `&` of the pieces of the keys in order. |
| Auth.SignatureBaseFields | download_twitter_resources/auth.py:128-134 | The base string splits back at its `&`s into the upper-cased method, the quoted Twitter URL and the quoted parameter string. This holds when the method has no `&` and `quote_plus` escapes `&`. |
| Auth.SigningKey | download_twitter_resources/auth.py:136-137 | A key exists exactly when the token secret is text. A numeric secret raises. |
| Auth.SigningKeyFields | download_twitter_resources/auth.py:136-137 | The signing key splits back into the consumer secret and the token secret. |
| Auth.SignSignature | download_twitter_resources/auth.py:139-146 | The signature is the base64 text of the HMAC-SHA1 digest less its last character. |
| Auth.HeaderDictionaryWithoutSignature | download_twitter_resources/auth.py:153-161 | The dictionary has exactly the six OAuth fields other than the signature. |
| OAuthFields.HeaderKeysSorted | download_twitter_resources/auth.py:169 | Sorting the seven header names gives consumer key, nonce, signature, signature method, timestamp, token, version. |
| Auth.WriteEntries | download_twitter_resources/auth.py:170-175 | The loop writes `OAuth ` followed by each `key="value", ` entry in order. |
| Auth.HeaderStringOfEntries | download_twitter_resources/auth.py:169-177 | Dropping the final `, ` gives `OAuth ` followed by the entries in sorted key order, joined by `, `. |
| Auth.WriteHeader | download_twitter_resources/auth.py:169-177 | The header text is the one defined by the sorted entries. |
| Auth.OAuthHeaderLayout | download_twitter_resources/auth.py:148-177 | A header exists exactly when the token and its secret are text, and a non-text secret raises. The header is `OAuth ` followed by seven quoted entries in sorted order: consumer key, nonce, signature over the parameters merged with the OAuth fields, `HMAC-SHA1`, decimal timestamp, token, `1.0`. |
| Auth.HeaderStringForRequest | download_twitter_resources/auth.py:163-177 | The caller's parameters are updated in place with the six OAuth fields. The result is the header above. No parameters (`None`) raise. |
| Auth.AuthHeadersModes | download_twitter_resources/auth.py:66-82 | Application mode returns exactly `{"Authorization": "Bearer <token>"}`. Private mode raises on a missing or empty URL or method, and otherwise returns exactly one `Authorization` header starting with `OAuth `. |
| Auth.TwitterAuth.AuthHeaders | download_twitter_resources/auth.py:66-82 | The headers are those above. The parameters are updated with the OAuth fields only when a signature is attempted. |
| Auth.TwitterAuth.constructor | download_twitter_resources/auth.py:13-36 | Application mode keeps the Bearer token. Private mode keeps the access token and secret when both are non-empty, and otherwise the pin stub's `1, 1`. |
| Auth.PinStubCannotSign | download_twitter_resources/auth.py:29-36 | With the pin stub's numeric values every private-mode signature raises. |
| AsyncExecutor.FirstSet | download_twitter_resources/async_executor.py:30-35 | None exactly when no variable is set to a non-empty value. Otherwise the value of the first such variable in the order given. |
| AsyncExecutor.GetProxyPriority | download_twitter_resources/async_executor.py:30-35 | The proxy is `http_proxy`, else `HTTP_PROXY`, else `https_proxy`, else `HTTPS_PROXY`, taking the first that is non-empty. With none of them non-empty there is no proxy. |
| AsyncExecutor.EmptyValueSkipped | download_twitter_resources/async_executor.py:33-34 | A variable set to the empty string is treated as unset. |
| AsyncExecutor.PrepareDirSpec | download_twitter_resources/async_executor.py:22-27 | The target directory is the path itself with a trailing slash, else its dirname. On success it is a directory, no directory is lost, and none of the new ones is a file or `""`. An existing directory changes nothing. The call fails exactly when the target is `""` or one of its ancestors is a file. |
| AsyncExecutor.MakeDirsAddsAncestry | download_twitter_resources/async_executor.py:26-27 | `os.makedirs(d)` adds only `d` and its ancestors, none of them empty or a file. |
| AsyncExecutor.PrepareDirIdempotent | download_twitter_resources/async_executor.py:26-27 | Preparing the same path twice changes nothing the second time. |
| AsyncExecutor.PrepareBareNameFails | download_twitter_resources/async_executor.py:23-27 | A path with no slash has the empty dirname, so preparing it raises `FileNotFoundError`. |
| AsyncExecutor.DirOfTrailingSlash | download_twitter_resources/async_executor.py:23-24 | A path ending in a slash is itself the directory `prepare_dir` creates. |
| AsyncExecutor.FileSystem.PrepareDir | download_twitter_resources/async_executor.py:22-27 | The directories become exactly those `PrepareDirSpec` gives, or stay unchanged on error. Files are unchanged. |
| AsyncExecutor.FileSystem.Download | download_twitter_resources/async_executor.py:69-83 | A failing `prepare_dir` changes nothing and fetches nothing. Otherwise the GET goes through `get_proxy()`. The file is written with the body exactly when the status is 200 (and the destination is not a directory). Any other status writes nothing and fails. |

## Left out

- Threads, the download queue's worker loop (`AsyncDownloader.start`, `run`, `stop`) and
  `stop`'s use of the undefined `self.thread`. These are concurrency. The queue is modelled as
  the sequence of tasks `add_url` receives.
- HTTP, JSON decoding, base64, HMAC-SHA1, UTF-8, `quote_plus`, `urlparse` and `json.dumps` are
  library calls. They are parameters (`Auth.Primitives`, the API function, the download
  response), and nothing is assumed about them beyond what a lemma states in its `requires`.
- The nonce (`random.choice`) and the timestamp (`time.time`) are inputs to the header
  functions. The timestamp is taken as a natural number.
- `get_tweet` (a single-tweet lookup) is outside the modelled core. So are the command-line
  entry point `__main__.py` (which calls a `download_images` that does not exist) and
  `setup.py`.
- `Downloader.bearer` in `downloader.py` duplicates `auth.py`'s `bearer` and is covered by
  `Auth.BasicCredentialRoundTrip` and `Auth.BearerToken`.
- Downloads are not performed during a run: the files (`fs.files`) stay as they were when
  `download_images_of_user` started. In the program the worker threads write files while the
  timeline is still being walked, so `os.path.exists` in `save_media` may already see a file
  queued earlier in the same run. The model checks destinations against the files present at
  the start only, so it can queue a task the program would skip.
- Logging and `print` calls are left out because they do not change state.
- A `KeyError` or `TypeError` on a malformed tweet or media record is not modelled. The records
  are typed, with `extended_entities`, `media` and `bitrate` optional as the code reads them.
- `AsciiUpper` upper-cases ASCII letters only. A non-ASCII HTTP method is not modelled.
- Paths are plain strings, not normalised. `os.path.isdir` and `os.path.exists` are membership
  in the modelled directory set and file map, and the current directory is not in the set.
  `os.makedirs(p)` adds `p` and its dirname ancestors.
- Downloader.SavePlan: the destination is stated through its ending and its directory
  (`PosixPath.DirnameOfJoin`, `AsyncExecutor.PrepareDirTarget`), not as the whole joined path.
- Media.SortByBitrate: stability is stated only through its consequence for the chosen
  variant (`Media.SortedLastIsLastMax`), not as a property of the whole order.
- Auth.SignSignature: the length of the base64 text of a 20-byte digest is not stated, because
  base64 is a parameter. So the model does not show that the dropped character is the `=`
  padding.

## Findings

| source | as written | input that shows it | evidently intended | confidence | as-written member | corrected member |
|---|---|---|---|---|---|---|
| download_twitter_resources/downloader.py:42-46 | When `save_dest` is not a directory, `prepare_dir(save_dest)` prepares `os.path.dirname(save_dest)`, not `save_dest`. For a bare relative name that dirname is `""`, and `os.makedirs("")` raises. | `save_dest = "pics"` with no directory `pics` yet: the run raises `InvalidDownloadPathError` before any request. | The destination directory itself is created (the docstring calls `save_dest` "the directory where images will be saved"), e.g. by preparing `save_dest + "/"`. | high; not executed | Downloader.BareSaveDestRunRejected | Downloader.SaveDestDirPrepared |
