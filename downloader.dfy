/** `Downloader`: where each media URL is saved and fetched from, the per-tweet numbering, the
    post-processing of one timeline page, and the pagination loop over a user's timeline.

    The timeline API is a function from the request to the response, so a run is determined by
    the API's answers. Downloads themselves are not performed here: `save_media` hands a task
    (fetch URL, destination path) to the executor's queue, modelled as the sequence of tasks
    handed over so far. */
module Downloader {
  import opened Wrappers
  import opened Text
  import PosixPath
  import AsyncExecutor
  import opened Media

  /** `(real_url, save_dest)` as passed to `AsyncDownloader.add_url`. */
  datatype Task = Task(url: string, dest: string)

  datatype Error =
    | ExtractFailed(extractError: ExtractError)            // from `extract_media_list`
    | PrepareFailed(fsError: AsyncExecutor.FsError)        // `prepare_dir` in `save_media`
    | InvalidDownloadPath(pathError: AsyncExecutor.FsError) // `InvalidDownloadPathError`

  const Mp4: string := ".mp4"

  // ---------------------------------------------------------------------------
  // save_media: destination and fetch URL

  /** The task `save_media(image, path, name, size)` would enqueue: nothing for an empty URL;
      otherwise the destination `join(path, name + ext)` and the fetch URL, which carries the
      `:size` suffix unless the extension is `.mp4`. */
  function SavePlan(image: string, path: string, name: string, size: string): (r: Option<Task>)
    ensures r.None? <==> image == ""
    ensures r.Some? ==> EndsWith(r.value.dest, name + PosixPath.Ext(image))
    ensures r.Some? ==> StartsWith(r.value.url, image)
    ensures r.Some? ==> (r.value.url == image <==> PosixPath.Ext(image) == Mp4)
    ensures r.Some? ==> r.value.url == if PosixPath.Ext(image) == Mp4 then image else image + ":" + size
  {
    if image == "" then None
    else
      var ext := PosixPath.Ext(image);
      var dest := PosixPath.Join(path, name + ext);
      var url := if ext != Mp4 then image + ":" + size else image;
      assert StartsWith(url, image) by {
        assert url[..|image|] == image;
      }
      Some(Task(url, dest))
  }

  /** The file name `process_tweet` gives the `i`-th media of a tweet, counting from 1. */
  function MediaName(idStr: string, i: nat): string
  {
    idStr + "-" + Decimal(i)
  }

  /** Decimal numerals name numbers uniquely. */
  lemma {:induction false} DecimalInjective(a: nat, b: nat)
    requires Decimal(a) == Decimal(b)
    ensures a == b
    decreases a
  {
    var da, db := Decimal(a), Decimal(b);
    assert a >= 10 ==> |Decimal(a / 10)| > 0;
    assert b >= 10 ==> |Decimal(b / 10)| > 0;
    assert (a < 10) == (|da| == 1) == (b < 10);
    if a < 10 {
      assert DigitChar(a) == da[0] == DigitChar(b);
    } else {
      assert Decimal(a / 10) == da[..|da| - 1] == db[..|db| - 1] == Decimal(b / 10);
      assert DigitChar(a % 10) == da[|da| - 1] == db[|db| - 1] == DigitChar(b % 10);
      DecimalInjective(a / 10, b / 10);
    }
  }

  /** A run of digits followed by an extension (empty or starting with a dot) is split there
      in only one way. */
  lemma DigitsBeforeExtension(d1: string, e1: string, d2: string, e2: string)
    requires forall i :: 0 <= i < |d1| ==> IsDigit(d1[i])
    requires forall i :: 0 <= i < |d2| ==> IsDigit(d2[i])
    requires e1 == "" || e1[0] == '.'
    requires e2 == "" || e2[0] == '.'
    requires d1 + e1 == d2 + e2
    ensures d1 == d2
  {
    var s := d1 + e1;
    assert forall i :: 0 <= i < |d1| ==> s[i] == d1[i];
    assert forall i :: 0 <= i < |d2| ==> s[i] == d2[i];
    assert |e1| > 0 ==> s[|d1|] == e1[0];
    assert |e2| > 0 ==> s[|d2|] == e2[0];
    assert |d1| == |d2|;
    assert d1 == s[..|d1|] == d2;
  }

  /** Two media of one tweet with different positions never share a file name, whatever
      extensions their URLs have. */
  lemma MediaNamesDistinct(idStr: string, i: nat, j: nat, extI: string, extJ: string)
    requires extI == "" || extI[0] == '.'
    requires extJ == "" || extJ[0] == '.'
    requires MediaName(idStr, i) + extI == MediaName(idStr, j) + extJ
    ensures i == j
  {
    var p := idStr + "-";
    var di, dj := Decimal(i), Decimal(j);
    assert MediaName(idStr, i) + extI == p + (di + extI);
    assert MediaName(idStr, j) + extJ == p + (dj + extJ);
    assert (p + (di + extI))[|p|..] == di + extI;
    assert (p + (dj + extJ))[|p|..] == dj + extJ;
    DigitsBeforeExtension(di, extI, dj, extJ);
    DecimalInjective(i, j);
  }

  // ---------------------------------------------------------------------------
  // save_media and process_tweet over the directories and the queue

  /** What `save_media` and `process_tweet` change: the directories that exist and the tasks
      handed to the executor. Files are only read. */
  datatype SaveState = SaveState(dirs: set<string>, queued: seq<Task>)

  /** A state reached by a run of saves, and the error that stopped it, if one did. */
  datatype Progress = Progress(state: SaveState, error: Option<Error>)

  /** `save_media(image, path, name, size)` given the existing `files`: prepare the
      destination's directory, then enqueue the task unless the destination exists. */
  function SaveMediaSpec(files: set<string>, st: SaveState, image: string, path: string,
                         name: string, size: string): Progress
  {
    match SavePlan(image, path, name, size)
    case None => Progress(st, None)
    case Some(t) =>
      match AsyncExecutor.PrepareDirSpec(st.dirs, files, t.dest)
      case Err(e) => Progress(st, Some(PrepareFailed(e)))
      case Ok(dirs) =>
        var present := t.dest in dirs || t.dest in files;
        Progress(SaveState(dirs, if present then st.queued else st.queued + [t]), None)
  }

  /** `save_media` enqueues at most the one planned task, and only when its destination did
      not exist once the directory was prepared; an existing file is always skipped. A
      destination that is neither a file nor a directory once prepared is always enqueued, and
      a failing `prepare_dir` raises with nothing enqueued. */
  lemma SaveMediaEnqueuesOnlyNew(files: set<string>, st: SaveState, image: string, path: string,
                                 name: string, size: string)
    ensures var p := SaveMediaSpec(files, st, image, path, name, size);
            st.dirs <= p.state.dirs &&
            (p.state.queued == st.queued ||
             (SavePlan(image, path, name, size).Some? &&
              var t := SavePlan(image, path, name, size).value;
              p.state.queued == st.queued + [t] && t.dest !in files && t.dest !in p.state.dirs))
    ensures SavePlan(image, path, name, size).Some? && SavePlan(image, path, name, size).value.dest in files ==>
              SaveMediaSpec(files, st, image, path, name, size).state.queued == st.queued
    ensures image == "" ==> SaveMediaSpec(files, st, image, path, name, size) == Progress(st, None)
    ensures SavePlan(image, path, name, size).Some? ==>
              var t := SavePlan(image, path, name, size).value;
              var prepared := AsyncExecutor.PrepareDirSpec(st.dirs, files, t.dest);
              (prepared.Err? ==>
                 SaveMediaSpec(files, st, image, path, name, size) == Progress(st, Some(PrepareFailed(prepared.error)))) &&
              (prepared.Ok? && t.dest !in files && t.dest !in prepared.value ==>
                 SaveMediaSpec(files, st, image, path, name, size) ==
                   Progress(SaveState(prepared.value, st.queued + [t]), None))
  {
  }

  /** `save_media` loses no directory, and raising leaves the state as it was. */
  lemma SaveMediaKeepsDirs(files: set<string>, st: SaveState, image: string, path: string,
                           name: string, size: string)
    ensures var p := SaveMediaSpec(files, st, image, path, name, size);
            st.dirs <= p.state.dirs && (p.error.Some? ==> p.state == st)
  {
  }

  /** Saves `urls` in order as media number `first`, `first + 1`, ..., stopping at the first
      error. */
  function SaveAllSpec(files: set<string>, st: SaveState, urls: seq<string>, idStr: string,
                       path: string, size: string, first: nat): Progress
    decreases |urls|
  {
    if |urls| == 0 then Progress(st, None)
    else
      var p := SaveMediaSpec(files, st, urls[0], path, MediaName(idStr, first), size);
      if p.error.Some? then p
      else SaveAllSpec(files, p.state, urls[1..], idStr, path, size, first + 1)
  }

  /** The tasks planned for `urls` numbered from `first`, in order (empty URLs plan none). */
  function Plans(urls: seq<string>, idStr: string, path: string, size: string, first: nat): seq<Task>
    decreases |urls|
  {
    if |urls| == 0 then []
    else OptionCons(SavePlan(urls[0], path, MediaName(idStr, first), size),
                    Plans(urls[1..], idStr, path, size, first + 1))
  }

  function OptionCons<T>(o: Option<T>, s: seq<T>): seq<T>
  {
    if o.Some? then [o.value] + s else s
  }

  /** `sub` keeps some of the elements of `s`, in their order. */
  predicate IsSubsequence<T(==)>(sub: seq<T>, s: seq<T>)
    decreases |s|
  {
    if |sub| == 0 then true
    else if |s| == 0 then false
    else if sub[0] == s[0] then IsSubsequence(sub[1..], s[1..])
    else IsSubsequence(sub, s[1..])
  }

  lemma {:induction false} SubsequenceOfRest<T>(sub: seq<T>, x: T, s: seq<T>)
    requires IsSubsequence(sub, s)
    ensures IsSubsequence(sub, [x] + s)
    decreases |s|, 1
  {
    assert ([x] + s)[1..] == s;
    if |sub| > 0 && sub[0] == x {
      SubsequenceDropFirst(sub, s);
    }
  }

  lemma {:induction false} SubsequenceDropFirst<T>(sub: seq<T>, s: seq<T>)
    requires |sub| > 0 && IsSubsequence(sub, s)
    ensures IsSubsequence(sub[1..], s)
    decreases |s|, 0
  {
    if |s| > 0 && sub[0] != s[0] {
      SubsequenceDropFirst(sub, s[1..]);
      SubsequenceOfRest(sub[1..], s[0], s[1..]);
      assert s == [s[0]] + s[1..];
    } else if |s| > 0 {
      SubsequenceOfRest(sub[1..], s[0], s[1..]);
      assert s == [s[0]] + s[1..];
    }
  }

  /** `after` is `before` followed by some of `plans`, in their order, none of them with a
      destination in `files`. */
  predicate QueuedFrom(before: seq<Task>, after: seq<Task>, plans: seq<Task>, files: set<string>)
  {
    |before| <= |after| && after[..|before|] == before &&
    IsSubsequence(after[|before|..], plans) &&
    forall k :: |before| <= k < |after| ==> after[k].dest !in files
  }

  lemma QueuedFromNothing(q: seq<Task>, plans: seq<Task>, files: set<string>)
    ensures QueuedFrom(q, q, plans, files)
  {
    assert q[|q|..] == [];
  }

  lemma QueuedFromSkip(q0: seq<Task>, q2: seq<Task>, t: Option<Task>, rest: seq<Task>, files: set<string>)
    requires QueuedFrom(q0, q2, rest, files)
    ensures QueuedFrom(q0, q2, OptionCons(t, rest), files)
  {
    if t.Some? {
      SubsequenceOfRest(q2[|q0|..], t.value, rest);
    }
  }

  lemma QueuedFromTake(q0: seq<Task>, t: Task, q2: seq<Task>, rest: seq<Task>, files: set<string>)
    requires t.dest !in files
    requires QueuedFrom(q0 + [t], q2, rest, files)
    ensures QueuedFrom(q0, q2, [t] + rest, files)
  {
    var added := q2[|q0| + 1..];
    assert q2[..|q0| + 1] == q0 + [t];
    assert q2[..|q0|] == q0;
    assert q2[|q0|..] == [t] + added;
    assert ([t] + added)[1..] == added;
    assert ([t] + rest)[1..] == rest;
  }

  /** One save followed by saves that queue from `rest` queues from its plan and `rest`. */
  lemma SaveMediaQueuesPlan(files: set<string>, st: SaveState, image: string, path: string,
                            name: string, size: string, q2: seq<Task>, rest: seq<Task>)
    requires QueuedFrom(SaveMediaSpec(files, st, image, path, name, size).state.queued, q2, rest, files)
    ensures QueuedFrom(st.queued, q2, OptionCons(SavePlan(image, path, name, size), rest), files)
  {
    var q1 := SaveMediaSpec(files, st, image, path, name, size).state.queued;
    SaveMediaEnqueuesOnlyNew(files, st, image, path, name, size);
    if q1 == st.queued {
      QueuedFromSkip(st.queued, q2, SavePlan(image, path, name, size), rest, files);
    } else {
      QueuedFromTake(st.queued, SavePlan(image, path, name, size).value, q2, rest, files);
    }
  }

  /** `process_tweet` names the media `{id_str}-1`, `{id_str}-2`, ... in extraction order: the
      tasks a run of saves adds to the queue are some of the planned tasks, in their order, and
      none of them has a destination that already was a file. */
  lemma {:induction false} SaveAllQueuesPlansInOrder(files: set<string>, st: SaveState, urls: seq<string>,
                                                    idStr: string, path: string, size: string, first: nat)
    ensures var p := SaveAllSpec(files, st, urls, idStr, path, size, first);
            st.dirs <= p.state.dirs &&
            QueuedFrom(st.queued, p.state.queued, Plans(urls, idStr, path, size, first), files)
    decreases |urls|
  {
    var p := SaveAllSpec(files, st, urls, idStr, path, size, first);
    if |urls| == 0 {
      QueuedFromNothing(st.queued, Plans(urls, idStr, path, size, first), files);
    } else {
      var name := MediaName(idStr, first);
      var p1 := SaveMediaSpec(files, st, urls[0], path, name, size);
      SaveMediaKeepsDirs(files, st, urls[0], path, name, size);
      SaveAllUnfold(files, st, urls, idStr, path, size, first);
      var rest := Plans(urls[1..], idStr, path, size, first + 1);
      if p1.error.Some? {
        QueuedFromNothing(st.queued, Plans(urls, idStr, path, size, first), files);
      } else {
        SaveAllQueuesPlansInOrder(files, p1.state, urls[1..], idStr, path, size, first + 1);
        SaveMediaQueuesPlan(files, st, urls[0], path, name, size, p.state.queued, rest);
      }
    }
  }

  /** None of `plans` has a destination that is a file or one of `dirs`. */
  predicate AllNew(plans: seq<Task>, files: set<string>, dirs: set<string>)
  {
    forall k :: 0 <= k < |plans| ==> plans[k].dest !in files && plans[k].dest !in dirs
  }

  /** Conversely, a run of saves that raises nothing and whose destinations are all new queues
      every planned task, in order: the queue grows by exactly the plans. */
  lemma {:induction false} SaveAllQueuesAllPlans(files: set<string>, st: SaveState, urls: seq<string>,
                                                idStr: string, path: string, size: string, first: nat)
    requires var p := SaveAllSpec(files, st, urls, idStr, path, size, first);
             p.error.None? && AllNew(Plans(urls, idStr, path, size, first), files, p.state.dirs)
    ensures SaveAllSpec(files, st, urls, idStr, path, size, first).state.queued ==
              st.queued + Plans(urls, idStr, path, size, first)
    decreases |urls|
  {
    if |urls| == 0 {
      assert st.queued + [] == st.queued;
    } else {
      var name := MediaName(idStr, first);
      var p1 := SaveMediaSpec(files, st, urls[0], path, name, size);
      var plan := SavePlan(urls[0], path, name, size);
      var rest := Plans(urls[1..], idStr, path, size, first + 1);
      var p := SaveAllSpec(files, p1.state, urls[1..], idStr, path, size, first + 1);
      SaveAllUnfold(files, st, urls, idStr, path, size, first);
      SaveAllQueuesPlansInOrder(files, p1.state, urls[1..], idStr, path, size, first + 1);
      AllNewSplit(plan, rest, files, p1.state.dirs, p.state.dirs);
      SaveAllQueuesAllPlans(files, p1.state, urls[1..], idStr, path, size, first + 1);
      SaveMediaQueuesNew(files, st, urls[0], path, name, size);
      QueueConcat(st.queued, p1.state.queued, p.state.queued, plan, rest);
    }
  }

  /** A save that raises nothing and whose destination is new queues its plan. */
  lemma SaveMediaQueuesNew(files: set<string>, st: SaveState, image: string, path: string,
                           name: string, size: string)
    requires var p := SaveMediaSpec(files, st, image, path, name, size);
             var plan := SavePlan(image, path, name, size);
             p.error.None? && (plan.Some? ==> plan.value.dest !in files && plan.value.dest !in p.state.dirs)
    ensures SaveMediaSpec(files, st, image, path, name, size).state.queued ==
              st.queued + OptionCons(SavePlan(image, path, name, size), [])
  {
  }

  /** Destinations new against the final directories are new against any smaller set, for the
      first plan and for the rest. */
  lemma AllNewSplit(plan: Option<Task>, rest: seq<Task>, files: set<string>, mid: set<string>, last: set<string>)
    requires mid <= last && AllNew(OptionCons(plan, rest), files, last)
    ensures plan.Some? ==> plan.value.dest !in files && plan.value.dest !in mid
    ensures AllNew(rest, files, last)
  {
    if plan.Some? {
      assert OptionCons(plan, rest)[0] == plan.value;
      forall k | 0 <= k < |rest| ensures rest[k].dest !in files && rest[k].dest !in last {
        assert rest[k] == OptionCons(plan, rest)[k + 1];
      }
    }
  }

  lemma QueueConcat(q0: seq<Task>, q1: seq<Task>, q2: seq<Task>, plan: Option<Task>, rest: seq<Task>)
    requires q1 == q0 + OptionCons(plan, []) && q2 == q1 + rest
    ensures q2 == q0 + OptionCons(plan, rest)
  {
    if plan.Some? {
      assert q2 == q0 + ([plan.value] + rest);
    }
  }

  /** `process_tweet(tweet, save_dest, size, include_video)`: the new state and the number of
      media, or the error and the state reached when it was raised. */
  function ProcessTweetSpec(files: set<string>, st: SaveState, tweet: Tweet, path: string,
                            size: string, includeVideo: bool): (Progress, nat)
  {
    match ExtractMediaListSpec(tweet, includeVideo)
    case Err(e) => (Progress(st, Some(ExtractFailed(e))), 0)
    case Ok(urls) => (SaveAllSpec(files, st, urls, tweet.idStr, path, size, 1), |urls|)
  }

  // ---------------------------------------------------------------------------
  // get_tweets

  /** The query `get_tweets` sends to `statuses/user_timeline`. */
  datatype Request = Request(screenName: string, count: int, includeRts: bool, maxId: Option<int>)

  /** The timeline API's answer: the HTTP status and the decoded list of tweets. */
  datatype ApiResponse = ApiResponse(status: int, tweets: seq<Tweet>)

  /** `if start:` on the cursor: there is one and it is not 0. */
  predicate IsTruthyCursor(start: Option<int>)
  {
    start.Some? && start.value != 0
  }

  /** The request for one page: `max_id` is sent only for a truthy cursor. */
  function TimelineRequest(user: string, start: Option<int>, count: int, rts: bool): (r: Request)
    ensures r.maxId.Some? <==> IsTruthyCursor(start)
    ensures r.maxId.Some? ==> r.maxId == start
    ensures r.screenName == user && r.count == count && r.includeRts == rts
  {
    Request(user, count, rts, if IsTruthyCursor(start) then start else None)
  }

  predicate IsSuffix<T(==)>(s: seq<T>, t: seq<T>)
  {
    |s| <= |t| && t[|t| - |s|..] == s
  }

  /** The page `get_tweets` returns for a response: nothing for a status other than 200 or for
      a single tweet (the echo of the cursor tweet); otherwise the tweets, without the first one
      when a cursor was sent. */
  function PageOf(start: Option<int>, response: ApiResponse): seq<Tweet>
  {
    if response.status != 200 then []
    else if |response.tweets| == 1 then []
    else if IsTruthyCursor(start) then (if |response.tweets| == 0 then [] else response.tweets[1..])
    else response.tweets
  }

  /** A page is a suffix of the tweets received: empty on an error status or a single tweet,
      and otherwise all of them except the first when a cursor was sent. */
  lemma PageOfShape(start: Option<int>, response: ApiResponse)
    ensures IsSuffix(PageOf(start, response), response.tweets)
    ensures response.status != 200 || |response.tweets| == 1 ==> PageOf(start, response) == []
    ensures response.status == 200 && |response.tweets| != 1 ==>
              |PageOf(start, response)| ==
                |response.tweets| - (if IsTruthyCursor(start) && |response.tweets| > 0 then 1 else 0)
  {
    var t := response.tweets;
    var r := PageOf(start, response);
    if r == [] {
      assert t[|t|..] == [];
    } else if r == t {
      assert t[0..] == t;
    } else {
      assert r == t[1..];
    }
  }

  /** `get_tweets(user, start, count, rts)` against the API `api`. */
  function GetTweets(api: Request -> ApiResponse, user: string, start: Option<int>, count: int, rts: bool): seq<Tweet>
  {
    PageOf(start, api(TimelineRequest(user, start, count, rts)))
  }

  // ---------------------------------------------------------------------------
  // download_images_of_user: the pages it processes

  function TotalLength(pages: seq<seq<Tweet>>): nat
  {
    if |pages| == 0 then 0 else TotalLength(pages[..|pages| - 1]) + |pages[|pages| - 1]|
  }

  /** The pages the loop of `download_images_of_user` processes when no tweet raises, starting
      from the cursor `start` with `checked` tweets already counted: a page is processed while
      it is not empty and fewer than `limit` tweets have been checked, and the next page is
      requested from the last processed tweet's id, without retweets. */
  function Pages(api: Request -> ApiResponse, user: string, limit: int, start: Option<int>,
                 checked: int, rts: bool): seq<seq<Tweet>>
    decreases if checked < limit then limit - checked else 0
  {
    var page := GetTweets(api, user, start, limit, rts);
    if |page| == 0 || checked >= limit then []
    else [page] + Pages(api, user, limit, Some(page[|page| - 1].id), checked + |page|, false)
  }

  lemma {:induction false} TotalLengthPrepend(page: seq<Tweet>, rest: seq<seq<Tweet>>)
    ensures TotalLength([page] + rest) == |page| + TotalLength(rest)
    decreases |rest|
  {
    if |rest| > 0 {
      var all := [page] + rest;
      assert all[..|all| - 1] == [page] + rest[..|rest| - 1];
      TotalLengthPrepend(page, rest[..|rest| - 1]);
    }
  }

  lemma TotalLengthAppend(pages: seq<seq<Tweet>>, page: seq<Tweet>)
    ensures TotalLength(pages + [page]) == TotalLength(pages) + |page|
  {
    assert (pages + [page])[..|pages|] == pages;
  }

  /** Every processed page is non-empty, each page was started with fewer than `limit` tweets
      checked, so the loop stops within one page of the limit: it counts at most
      `limit - 1 + ` the size of the last page. */
  lemma PagesStopAtLimit(api: Request -> ApiResponse, user: string, limit: int,
                         start: Option<int>, checked: int, rts: bool)
    ensures var ps := Pages(api, user, limit, start, checked, rts);
            (forall i :: 0 <= i < |ps| ==> |ps[i]| > 0) &&
            (forall i :: 0 <= i < |ps| ==> checked + TotalLength(ps[..i]) < limit) &&
            (|ps| > 0 ==> checked + TotalLength(ps) < limit + |ps[|ps| - 1]|)
  {
    PagesNonEmpty(api, user, limit, start, checked, rts);
    PagesStartBelowLimit(api, user, limit, start, checked, rts);
    PagesEndNearLimit(api, user, limit, start, checked, rts);
  }

  lemma {:induction false} PagesNonEmpty(api: Request -> ApiResponse, user: string, limit: int,
                                         start: Option<int>, checked: int, rts: bool)
    ensures var ps := Pages(api, user, limit, start, checked, rts);
            forall i :: 0 <= i < |ps| ==> |ps[i]| > 0
    decreases if checked < limit then limit - checked else 0
  {
    var page := GetTweets(api, user, start, limit, rts);
    if |page| > 0 && checked < limit {
      var next := Some(page[|page| - 1].id);
      PagesNonEmpty(api, user, limit, next, checked + |page|, false);
      PagesStep(api, user, limit, start, checked, rts);
    }
  }

  lemma {:induction false} PagesStartBelowLimit(api: Request -> ApiResponse, user: string, limit: int,
                                                start: Option<int>, checked: int, rts: bool)
    ensures var ps := Pages(api, user, limit, start, checked, rts);
            forall i :: 0 <= i < |ps| ==> checked + TotalLength(ps[..i]) < limit
    decreases if checked < limit then limit - checked else 0
  {
    var ps := Pages(api, user, limit, start, checked, rts);
    var page := GetTweets(api, user, start, limit, rts);
    if |page| > 0 && checked < limit {
      var next := Some(page[|page| - 1].id);
      PagesStartBelowLimit(api, user, limit, next, checked + |page|, false);
      var rest := Pages(api, user, limit, next, checked + |page|, false);
      PagesStep(api, user, limit, start, checked, rts);
      forall i | 0 <= i < |ps| ensures checked + TotalLength(ps[..i]) < limit {
        if i > 0 {
          assert ps[..i] == [page] + rest[..i - 1];
          TotalLengthPrepend(page, rest[..i - 1]);
        } else {
          assert ps[..i] == [];
        }
      }
    }
  }

  lemma {:induction false} PagesEndNearLimit(api: Request -> ApiResponse, user: string, limit: int,
                                             start: Option<int>, checked: int, rts: bool)
    ensures var ps := Pages(api, user, limit, start, checked, rts);
            |ps| > 0 ==> checked + TotalLength(ps) < limit + |ps[|ps| - 1]|
    decreases if checked < limit then limit - checked else 0
  {
    var page := GetTweets(api, user, start, limit, rts);
    if |page| > 0 && checked < limit {
      var next := Some(page[|page| - 1].id);
      PagesEndNearLimit(api, user, limit, next, checked + |page|, false);
      var rest := Pages(api, user, limit, next, checked + |page|, false);
      PagesCons(api, user, limit, start, checked, rts, page);
      EndNearLimitStep(checked, limit, page, rest);
    } else {
      PagesStep(api, user, limit, start, checked, rts);
    }
  }

  lemma EndNearLimitStep(checked: int, limit: int, page: seq<Tweet>, rest: seq<seq<Tweet>>)
    requires checked < limit
    requires |rest| > 0 ==> checked + |page| + TotalLength(rest) < limit + |rest[|rest| - 1]|
    ensures var ps := [page] + rest;
            checked + TotalLength(ps) < limit + |ps[|ps| - 1]|
  {
    TotalLengthPrepend(page, rest);
    if |rest| == 0 {
      assert TotalLength(rest) == 0;
    } else {
      assert ([page] + rest)[|rest|] == rest[|rest| - 1];
    }
  }

  /** A first page of a single tweet, or any status other than 200, ends the run before any
      tweet is processed. */
  lemma SingleTweetPageEndsRun(api: Request -> ApiResponse, user: string, limit: int,
                               start: Option<int>, checked: int, rts: bool)
    requires var response := api(TimelineRequest(user, start, limit, rts));
             response.status != 200 || |response.tweets| == 1
    ensures Pages(api, user, limit, start, checked, rts) == []
  {
  }

  // ---------------------------------------------------------------------------
  // The save destination

  /** The entry check of `download_images_of_user` as written: unless `save_dest` already is a
      directory, `prepare_dir(save_dest)`, which prepares the dirname of a path without a
      trailing slash. The directories afterwards, or the error behind `InvalidDownloadPathError`. */
  function EntryCheck(dirs: set<string>, files: set<string>, saveDest: string): Result<set<string>, AsyncExecutor.FsError>
  {
    if saveDest in dirs then Ok(dirs) else AsyncExecutor.PrepareDirSpec(dirs, files, saveDest)
  }

  /** As written, a fresh destination given as a bare relative name, such as `pics`, fails the
      entry check: `prepare_dir("pics")` asks `os.makedirs("")`. */
  lemma BareSaveDestRejectedAsWritten(dirs: set<string>, files: set<string>, name: string)
    requires "" !in dirs && name !in dirs
    requires forall i :: 0 <= i < |name| ==> name[i] != PosixPath.Sep
    ensures AsyncExecutor.DirOf(name) == ""
    ensures EntryCheck(dirs, files, name) == Err(AsyncExecutor.NoSuchFile)
  {
    AsyncExecutor.PrepareBareNameFails(dirs, files, name);
  }

  /** The path to hand to `prepare_dir` so that the save destination itself is the directory
      prepared: the destination with a trailing slash. */
  function SaveDestDir(saveDest: string): string
  {
    if EndsWith(saveDest, "/") then saveDest else saveDest + "/"
  }

  /** The entry check as evidently intended: `prepare_dir` of the destination with a trailing
      slash, so that the destination itself is created. */
  function EntryCheckCorrected(dirs: set<string>, files: set<string>, saveDest: string): Result<set<string>, AsyncExecutor.FsError>
  {
    if saveDest in dirs then Ok(dirs) else AsyncExecutor.PrepareDirSpec(dirs, files, SaveDestDir(saveDest))
  }

  /** The corrected entry check makes the destination a directory (as `d` or, when that was
      already there, as `d/`), and fails only when one of the paths it has to create is a file:
      a bare relative name works. */
  lemma SaveDestDirPrepared(dirs: set<string>, files: set<string>, saveDest: string)
    requires saveDest != "" && !EndsWith(saveDest, "/")
    ensures AsyncExecutor.DirOf(SaveDestDir(saveDest)) == saveDest + "/"
    ensures EntryCheckCorrected(dirs, files, saveDest).Ok? ==>
              saveDest in EntryCheckCorrected(dirs, files, saveDest).value || saveDest + "/" in dirs
    ensures EntryCheckCorrected(dirs, files, saveDest).Err? ==>
              AsyncExecutor.Ancestry(saveDest + "/") * files != {}
  {
    var p := saveDest + "/";
    assert EndsWith(p, "/");
    var parent := PosixPath.Dirname(p);
    assert PosixPath.RFind(p, '/') == |saveDest|;
    assert p[..|saveDest| + 1] == p;
    assert !PosixPath.AllAre(p, '/') by {
      assert p[|saveDest| - 1] == saveDest[|saveDest| - 1] != '/';
    }
    PosixPath.RStripAppended(saveDest, '/');
    assert PosixPath.RStrip(saveDest, '/') == saveDest;
    assert parent == saveDest;
    assert saveDest in AsyncExecutor.Ancestry(p);
  }

  // ---------------------------------------------------------------------------
  // A run of process_tweet calls

  /** What a run of `download_images_of_user` changes: the directories, the queue and the
      cursor `last_tweet`. */
  datatype RunState = RunState(save: SaveState, lastTweet: Option<int>)

  /** A state reached by a run, and the error that stopped it, if one did. */
  datatype RunProgress = RunProgress(state: RunState, error: Option<Error>)

  /** `process_tweet(tweet, save_dest, include_video=...)` as the page loop calls it, in the
      default size `large`: the cursor moves to the tweet unless it raises. */
  function TweetStep(files: set<string>, rs: RunState, tweet: Tweet, path: string, includeVideo: bool): RunProgress
  {
    var p := ProcessTweetSpec(files, rs.save, tweet, path, "large", includeVideo).0;
    if p.error.Some? then RunProgress(RunState(p.state, rs.lastTweet), p.error)
    else RunProgress(RunState(p.state, Some(tweet.id)), None)
  }

  /** The tweets of a page processed in order, stopping at the first that raises. */
  function PageSpec(files: set<string>, rs: RunState, tweets: seq<Tweet>, path: string, includeVideo: bool): RunProgress
    decreases |tweets|
  {
    if |tweets| == 0 then RunProgress(rs, None)
    else
      var p := TweetStep(files, rs, tweets[0], path, includeVideo);
      if p.error.Some? then p else PageSpec(files, p.state, tweets[1..], path, includeVideo)
  }

  /** Pages processed in order, stopping at the first tweet that raises. */
  function RunSpec(files: set<string>, rs: RunState, pages: seq<seq<Tweet>>, path: string, includeVideo: bool): RunProgress
    decreases |pages|
  {
    if |pages| == 0 then RunProgress(rs, None)
    else
      var p := PageSpec(files, rs, pages[0], path, includeVideo);
      if p.error.Some? then p else RunSpec(files, p.state, pages[1..], path, includeVideo)
  }

  /** `download_images_of_user(user, save_dest, size, limit, rts, include_video)` as a value:
      the entry check as written, then every page `Pages` defines, from the current cursor. */
  function DownloadSpec(files: set<string>, rs: RunState, api: Request -> ApiResponse, user: string,
                        saveDest: string, limit: int, rts: bool, includeVideo: bool): RunProgress
  {
    match EntryCheck(rs.save.dirs, files, saveDest)
    case Err(e) => RunProgress(rs, Some(InvalidDownloadPath(e)))
    case Ok(dirs) =>
      RunSpec(files, RunState(SaveState(dirs, rs.save.queued), rs.lastTweet),
              Pages(api, user, limit, rs.lastTweet, 0, rts), saveDest, includeVideo)
  }

  /** As written, the whole run with such a destination raises `InvalidDownloadPathError`
      before any request and changes nothing. */
  lemma BareSaveDestRunRejected(files: set<string>, rs: RunState, api: Request -> ApiResponse, user: string,
                                name: string, limit: int, rts: bool, includeVideo: bool)
    requires "" !in rs.save.dirs && name !in rs.save.dirs
    requires forall i :: 0 <= i < |name| ==> name[i] != PosixPath.Sep
    ensures DownloadSpec(files, rs, api, user, name, limit, rts, includeVideo) ==
            RunProgress(rs, Some(InvalidDownloadPath(AsyncExecutor.NoSuchFile)))
  {
    BareSaveDestRejectedAsWritten(rs.save.dirs, files, name);
  }

  /** A run only adds directories and appends to the queue: nothing queued is lost, whether or
      not a tweet raises. */
  predicate Grows(before: RunState, after: RunState)
  {
    before.save.dirs <= after.save.dirs &&
    |before.save.queued| <= |after.save.queued| && after.save.queued[..|before.save.queued|] == before.save.queued
  }

  lemma TweetStepGrows(files: set<string>, rs: RunState, tweet: Tweet, path: string, includeVideo: bool)
    ensures Grows(rs, TweetStep(files, rs, tweet, path, includeVideo).state)
  {
    match ExtractMediaListSpec(tweet, includeVideo)
    case Err(_) =>
    case Ok(urls) =>
      SaveAllQueuesPlansInOrder(files, rs.save, urls, tweet.idStr, path, "large", 1);
  }

  lemma {:induction false} PageSpecGrows(files: set<string>, rs: RunState, tweets: seq<Tweet>, path: string, includeVideo: bool)
    ensures Grows(rs, PageSpec(files, rs, tweets, path, includeVideo).state)
    decreases |tweets|
  {
    if |tweets| > 0 {
      var p := TweetStep(files, rs, tweets[0], path, includeVideo);
      TweetStepGrows(files, rs, tweets[0], path, includeVideo);
      if p.error.None? {
        PageSpecGrows(files, p.state, tweets[1..], path, includeVideo);
        GrowsTransitive(rs, p.state, PageSpec(files, p.state, tweets[1..], path, includeVideo).state);
      }
    }
  }

  /** Every run, whole or stopped by a tweet that raises, only adds directories and appends to
      the queue. */
  lemma {:induction false} RunSpecGrows(files: set<string>, rs: RunState, pages: seq<seq<Tweet>>, path: string, includeVideo: bool)
    ensures Grows(rs, RunSpec(files, rs, pages, path, includeVideo).state)
    decreases |pages|
  {
    if |pages| > 0 {
      var p := PageSpec(files, rs, pages[0], path, includeVideo);
      PageSpecGrows(files, rs, pages[0], path, includeVideo);
      if p.error.None? {
        RunSpecGrows(files, p.state, pages[1..], path, includeVideo);
        GrowsTransitive(rs, p.state, RunSpec(files, p.state, pages[1..], path, includeVideo).state);
      }
    }
  }

  lemma GrowsTransitive(a: RunState, b: RunState, c: RunState)
    requires Grows(a, b) && Grows(b, c)
    ensures Grows(a, c)
  {
    assert c.save.queued[..|a.save.queued|] == c.save.queued[..|b.save.queued|][..|a.save.queued|];
  }

  /** A page processed without error leaves the cursor at its last tweet. */
  lemma {:induction false} PageSpecCursor(files: set<string>, rs: RunState, tweets: seq<Tweet>, path: string, includeVideo: bool)
    requires |tweets| > 0 && PageSpec(files, rs, tweets, path, includeVideo).error.None?
    ensures PageSpec(files, rs, tweets, path, includeVideo).state.lastTweet == Some(tweets[|tweets| - 1].id)
    decreases |tweets|
  {
    var p := TweetStep(files, rs, tweets[0], path, includeVideo);
    if |tweets| > 1 {
      PageSpecCursor(files, p.state, tweets[1..], path, includeVideo);
    }
  }

  /** A run without error over non-empty pages leaves the cursor at the last tweet of the last
      page, where the next request would start. */
  lemma {:induction false} RunSpecCursor(files: set<string>, rs: RunState, pages: seq<seq<Tweet>>, path: string, includeVideo: bool)
    requires |pages| > 0 && forall i :: 0 <= i < |pages| ==> |pages[i]| > 0
    requires RunSpec(files, rs, pages, path, includeVideo).error.None?
    ensures RunSpec(files, rs, pages, path, includeVideo).state.lastTweet == LastId(pages)
    decreases |pages|
  {
    var p := PageSpec(files, rs, pages[0], path, includeVideo);
    assert |pages[0]| > 0;
    if |pages| == 1 {
      PageSpecCursor(files, rs, pages[0], path, includeVideo);
    } else {
      assert forall i :: 0 <= i < |pages[1..]| ==> pages[1..][i] == pages[i + 1];
      RunSpecCursor(files, p.state, pages[1..], path, includeVideo);
      assert pages[1..][|pages[1..]| - 1] == pages[|pages| - 1];
    }
  }

  /** One step of `SaveAllSpec`. */
  lemma SaveAllUnfold(files: set<string>, st: SaveState, urls: seq<string>, idStr: string,
                      path: string, size: string, first: nat)
    requires |urls| > 0
    ensures var p := SaveMediaSpec(files, st, urls[0], path, MediaName(idStr, first), size);
            SaveAllSpec(files, st, urls, idStr, path, size, first) ==
              if p.error.Some? then p else SaveAllSpec(files, p.state, urls[1..], idStr, path, size, first + 1)
  {
  }

  /** The id of the last tweet of the last page, if there is one. */
  function LastId(pages: seq<seq<Tweet>>): Option<int>
  {
    if |pages| == 0 || |pages[|pages| - 1]| == 0 then None
    else Some(pages[|pages| - 1][|pages[|pages| - 1]| - 1].id)
  }

  /** One step of `Pages`. */
  lemma PagesStep(api: Request -> ApiResponse, user: string, limit: int, start: Option<int>,
                  checked: int, rts: bool)
    ensures var page := GetTweets(api, user, start, limit, rts);
            Pages(api, user, limit, start, checked, rts) ==
              if |page| == 0 || checked >= limit then []
              else [page] + Pages(api, user, limit, Some(page[|page| - 1].id), checked + |page|, false)
  {
  }

  /** A page that is not empty, fetched below the limit, heads the pages. */
  lemma PagesCons(api: Request -> ApiResponse, user: string, limit: int, start: Option<int>,
                  checked: int, rts: bool, page: seq<Tweet>)
    requires page == GetTweets(api, user, start, limit, rts) && |page| > 0 && checked < limit
    ensures Pages(api, user, limit, start, checked, rts) ==
            [page] + Pages(api, user, limit, Some(page[|page| - 1].id), checked + |page|, false)
  {
    PagesStep(api, user, limit, start, checked, rts);
  }

  /** Moving the page just processed from the pages to come to the pages done. */
  /** `a` is an initial segment of `b`. */
  ghost predicate IsPrefix<T>(a: seq<T>, b: seq<T>)
  {
    |a| <= |b| && a == b[..|a|]
  }

  /** `pages` are the pages done and `rest` the pages still to come of `all`. */
  ghost predicate Remains<T>(all: seq<T>, pages: seq<T>, rest: seq<T>)
  {
    |pages| <= |all| && rest == all[|pages|..] && pages == all[..|pages|]
  }

  lemma AdvancePage<T>(all: seq<T>, pages: seq<T>, page: T, next: seq<T>)
    requires Remains(all, pages, [page] + next)
    ensures Remains(all, pages + [page], next)
    ensures IsPrefix(pages + [page], all)
  {
    assert all[|pages| + 1..] == all[|pages|..][1..];
    assert all[..|pages| + 1] == all[..|pages|] + [all[|pages|]];
  }

  lemma RemainsEnd<T>(all: seq<T>, pages: seq<T>)
    requires Remains(all, pages, [])
    ensures pages == all
  {
  }

  /** One step of `RunSpec`. */
  lemma RunSpecCons(files: set<string>, rs: RunState, page: seq<Tweet>, next: seq<seq<Tweet>>,
                    path: string, includeVideo: bool)
    ensures var p := PageSpec(files, rs, page, path, includeVideo);
            RunSpec(files, rs, [page] + next, path, includeVideo) ==
              if p.error.Some? then p else RunSpec(files, p.state, next, path, includeVideo)
  {
    assert ([page] + next)[0] == page && ([page] + next)[1..] == next;
  }

  // ---------------------------------------------------------------------------
  // A page of tweets that each carry one new photo

  /** The tweet's `extended_entities` has a `media` list with exactly one entry, a photo. */
  predicate SinglePhoto(t: Tweet)
  {
    t.extendedEntities.Some? && t.extendedEntities.value.media.Some? &&
    |t.extendedEntities.value.media.value| == 1 && t.extendedEntities.value.media.value[0].kind == "photo"
  }

  /** The `media_url` of a single-photo tweet (empty for any other tweet). */
  function PhotoUrl(t: Tweet): string
  {
    if SinglePhoto(t) then t.extendedEntities.value.media.value[0].mediaUrl else ""
  }

  /** A URL of the form `x.jpg` whose stem `x` ends in neither a dot nor a slash. */
  predicate IsJpgUrl(u: string)
  {
    |u| >= 5 && u[|u| - 4..] == ".jpg" && u[|u| - 5] != PosixPath.ExtSep && u[|u| - 5] != PosixPath.Sep
  }

  /** The task saving a single-photo tweet's photo under `path` at the default size. */
  function PhotoTask(t: Tweet, path: string): Task
  {
    Task(PhotoUrl(t) + ":large", path + "/" + t.idStr + "-1.jpg")
  }

  /** A single-photo tweet with a `.jpg` URL whose destination under `path` is not yet taken. */
  predicate FreshPhotoTweet(files: set<string>, dirs: set<string>, t: Tweet, path: string)
  {
    SinglePhoto(t) && IsJpgUrl(PhotoUrl(t)) &&
    (forall i :: 0 <= i < |t.idStr| ==> t.idStr[i] != PosixPath.Sep) &&
    PhotoTask(t, path).dest !in files && PhotoTask(t, path).dest !in dirs
  }

  /** A save directory `path` that exists and does not end in a slash. */
  predicate ReadyDir(dirs: set<string>, path: string)
  {
    path in dirs && path != "" && path[|path| - 1] != PosixPath.Sep
  }

  /** The tasks for a page of single-photo tweets, in order. */
  function PhotoTasks(tweets: seq<Tweet>, path: string): (r: seq<Task>)
    ensures |r| == |tweets|
    decreases |tweets|
  {
    if |tweets| == 0 then [] else [PhotoTask(tweets[0], path)] + PhotoTasks(tweets[1..], path)
  }

  /** A single-photo tweet yields its one photo URL, whether or not videos are included. */
  lemma SinglePhotoUrls(t: Tweet, includeVideo: bool)
    requires SinglePhoto(t)
    ensures ExtractMediaListSpec(t, includeVideo) == Ok([PhotoUrl(t)])
  {
    var media := t.extendedEntities.value.media.value;
    assert media[..0] == [];
    assert MediaUrls(media[..0], includeVideo) == Ok([]);
    assert Contribution(media[0], includeVideo) == Ok(Some(PhotoUrl(t)));
    assert [] + [PhotoUrl(t)] == [PhotoUrl(t)];
  }

  /** A `.jpg` URL has the extension `.jpg`. */
  lemma JpgExt(u: string)
    requires IsJpgUrl(u)
    ensures PosixPath.Ext(u) == ".jpg"
  {
    var x := u[..|u| - 4];
    assert u == x + [PosixPath.ExtSep] + "jpg";
    PosixPath.ExtAfterLastDot(x, "jpg");
  }

  /** Media number 1 of a fresh photo tweet is fetched from `{media_url}:large` and saved as
      `{path}/{id_str}-1.jpg`, whose directory is `path` itself. */
  lemma PhotoPlan(t: Tweet, path: string, dirs: set<string>, files: set<string>)
    requires ReadyDir(dirs, path) && FreshPhotoTweet(files, dirs, t, path)
    ensures SavePlan(PhotoUrl(t), path, MediaName(t.idStr, 1), "large") == Some(PhotoTask(t, path))
    ensures AsyncExecutor.DirOf(PhotoTask(t, path).dest) == path
  {
    var u := PhotoUrl(t);
    JpgExt(u);
    assert Decimal(1) == "1";
    var leaf := t.idStr + "-1.jpg";
    assert MediaName(t.idStr, 1) + PosixPath.Ext(u) == leaf;
    assert u + ":" + "large" == u + ":large";
    assert path + [PosixPath.Sep] + leaf == path + "/" + t.idStr + "-1.jpg";
    assert !StartsWith(leaf, [PosixPath.Sep]) by {
      assert leaf[0] != PosixPath.Sep;
    }
    assert !EndsWith(path, [PosixPath.Sep]) by {
      assert path[|path| - 1..] == [path[|path| - 1]];
    }
    assert PosixPath.Join(path, leaf) == path + "/" + leaf;
    AsyncExecutor.DirOfJoin(path, leaf);
    assert PosixPath.RStrip(path, PosixPath.Sep) == path;
  }

  /** The photo of such a tweet is saved as `{path}/{id_str}-1.jpg` from `{media_url}:large`:
      the directory is already there and the destination is new, so the task is queued and the
      cursor moves to the tweet. */
  lemma NewPhotoQueued(files: set<string>, rs: RunState, t: Tweet, path: string, includeVideo: bool)
    requires ReadyDir(rs.save.dirs, path) && FreshPhotoTweet(files, rs.save.dirs, t, path)
    ensures TweetStep(files, rs, t, path, includeVideo) ==
            RunProgress(RunState(SaveState(rs.save.dirs, rs.save.queued + [PhotoTask(t, path)]), Some(t.id)), None)
  {
    var u := PhotoUrl(t);
    var name := MediaName(t.idStr, 1);
    SinglePhotoUrls(t, includeVideo);
    PhotoPlan(t, path, rs.save.dirs, files);
    SaveMediaEnqueuesOnlyNew(files, rs.save, u, path, name, "large");
    var after := SaveState(rs.save.dirs, rs.save.queued + [PhotoTask(t, path)]);
    assert SaveMediaSpec(files, rs.save, u, path, name, "large") == Progress(after, None);
    SaveAllUnfold(files, rs.save, [u], t.idStr, path, "large", 1);
    assert [u][1..] == [];
    assert SaveAllSpec(files, rs.save, [u], t.idStr, path, "large", 1) == Progress(after, None);
  }

  /** A page of such tweets queues exactly their tasks, in order, creates no directory and
      leaves the cursor at the last tweet. */
  lemma {:induction false} PhotoPageQueuesAll(files: set<string>, rs: RunState, tweets: seq<Tweet>,
                                              path: string, includeVideo: bool)
    requires ReadyDir(rs.save.dirs, path)
    requires forall i :: 0 <= i < |tweets| ==> FreshPhotoTweet(files, rs.save.dirs, tweets[i], path)
    ensures PageSpec(files, rs, tweets, path, includeVideo) ==
            RunProgress(RunState(SaveState(rs.save.dirs, rs.save.queued + PhotoTasks(tweets, path)),
                                 if |tweets| == 0 then rs.lastTweet else Some(tweets[|tweets| - 1].id)), None)
    decreases |tweets|
  {
    if |tweets| == 0 {
      assert rs.save.queued + [] == rs.save.queued;
    } else {
      NewPhotoQueued(files, rs, tweets[0], path, includeVideo);
      var q1 := rs.save.queued + [PhotoTask(tweets[0], path)];
      var rs1 := RunState(SaveState(rs.save.dirs, q1), Some(tweets[0].id));
      PageSpecAfterStep(files, rs, tweets, path, includeVideo, rs1);
      var later := tweets[1..];
      assert forall i :: 0 <= i < |later| ==> later[i] == tweets[i + 1];
      PhotoPageQueuesAll(files, rs1, later, path, includeVideo);
      assert |later| > 0 ==> later[|later| - 1] == tweets[|tweets| - 1];
      assert PhotoTasks(tweets, path) == [PhotoTask(tweets[0], path)] + PhotoTasks(later, path);
      SeqAssoc(rs.save.queued, [PhotoTask(tweets[0], path)], PhotoTasks(later, path));
    }
  }

  /** A page whose first tweet raises nothing continues from the state that tweet reached. */
  lemma PageSpecAfterStep(files: set<string>, rs: RunState, tweets: seq<Tweet>, path: string,
                          includeVideo: bool, next: RunState)
    requires |tweets| > 0 && TweetStep(files, rs, tweets[0], path, includeVideo) == RunProgress(next, None)
    ensures PageSpec(files, rs, tweets, path, includeVideo) == PageSpec(files, next, tweets[1..], path, includeVideo)
  {
  }

  lemma SeqAssoc<T>(a: seq<T>, b: seq<T>, c: seq<T>)
    ensures a + b + c == a + (b + c)
  {
  }

  /** Three tweets with one new photo each, saved into an existing directory: the page queues
      exactly `{path}/{id}-1.jpg` for each tweet, in order, and the cursor ends at the third. */
  lemma ThreePhotoTweets(files: set<string>, rs: RunState, t1: Tweet, t2: Tweet, t3: Tweet, path: string)
    requires ReadyDir(rs.save.dirs, path)
    requires FreshPhotoTweet(files, rs.save.dirs, t1, path)
    requires FreshPhotoTweet(files, rs.save.dirs, t2, path)
    requires FreshPhotoTweet(files, rs.save.dirs, t3, path)
    ensures PageSpec(files, rs, [t1, t2, t3], path, false) ==
            RunProgress(RunState(SaveState(rs.save.dirs, rs.save.queued + [
                          Task(PhotoUrl(t1) + ":large", path + "/" + t1.idStr + "-1.jpg"),
                          Task(PhotoUrl(t2) + ":large", path + "/" + t2.idStr + "-1.jpg"),
                          Task(PhotoUrl(t3) + ":large", path + "/" + t3.idStr + "-1.jpg")]),
                        Some(t3.id)), None)
  {
    var ts := [t1, t2, t3];
    forall i | 0 <= i < |ts|
      ensures FreshPhotoTweet(files, rs.save.dirs, ts[i], path)
    {
      if i == 0 {
        assert ts[i] == t1;
      } else if i == 1 {
        assert ts[i] == t2;
      } else {
        assert ts[i] == t3;
      }
    }
    PhotoPageQueuesAll(files, rs, ts, path, false);
    ThreePhotoTasks(t1, t2, t3, path);
  }

  lemma ThreePhotoTasks(t1: Tweet, t2: Tweet, t3: Tweet, path: string)
    ensures PhotoTasks([t1, t2, t3], path) == [PhotoTask(t1, path), PhotoTask(t2, path), PhotoTask(t3, path)]
  {
    assert [t3][1..] == [];
    assert PhotoTasks([t3], path) == [PhotoTask(t3, path)];
    assert [t2, t3][1..] == [t3];
    assert PhotoTasks([t2, t3], path) == [PhotoTask(t2, path), PhotoTask(t3, path)];
    assert [t1, t2, t3][1..] == [t2, t3];
  }

  // ---------------------------------------------------------------------------
  // The downloader object

  class Downloader {
    const bearerToken: string
    const fs: AsyncExecutor.FileSystem
    /** `last_tweet`: the id of the last tweet processed, the cursor for the next page. */
    var lastTweet: Option<int>
    /** The tasks handed to the executor's queue, in order. */
    var queued: seq<Task>

    ghost predicate Valid()
      reads this, fs
    {
      fs.Valid()
    }

    /** The part of the state a run changes. */
    ghost function Snapshot(): RunState
      reads this, fs
    {
      RunState(SaveState(fs.dirs, queued), lastTweet)
    }

    /** `Downloader(api_key, api_secret)` once the bearer token has been obtained. */
    constructor (bearerToken: string, fs: AsyncExecutor.FileSystem)
      requires fs.Valid()
      ensures Valid() && this.bearerToken == bearerToken && this.fs == fs
      ensures lastTweet == None && queued == []
    {
      this.bearerToken := bearerToken;
      this.fs := fs;
      lastTweet := None;
      queued := [];
    }

    /** `save_media(image, path, name, size)` */
    method SaveMedia(image: string, path: string, name: string, size: string) returns (o: Outcome<Error>)
      requires Valid()
      modifies this, fs
      ensures Valid() && fs.files == old(fs.files) && lastTweet == old(lastTweet)
      ensures var p := SaveMediaSpec(old(fs.files).Keys, SaveState(old(fs.dirs), old(queued)), image, path, name, size);
              fs.dirs == p.state.dirs && queued == p.state.queued &&
              (if o.Pass? then p.error == None else p.error == Some(o.error))
    {
      var plan := SavePlan(image, path, name, size);
      if plan.None? {
        return Pass;
      }
      var t := plan.value;
      var prepared := fs.PrepareDir(t.dest);
      if prepared.Fail? {
        return Fail(PrepareFailed(prepared.error));
      }
      if !fs.Exists(t.dest) {
        queued := queued + [t];
      }
      o := Pass;
    }

    /** `process_tweet(tweet, save_dest, size, include_video)`: saves the media as
        `{id_str}-1`, `{id_str}-2`, ..., then moves the cursor to the tweet, whose media count
        it returns. Raising leaves the cursor where it was. */
    method ProcessTweet(tweet: Tweet, saveDest: string, size: string, includeVideo: bool)
      returns (r: Result<nat, Error>)
      requires Valid()
      modifies this, fs
      ensures Valid() && fs.files == old(fs.files)
      ensures var (p, n) := ProcessTweetSpec(old(fs.files).Keys, SaveState(old(fs.dirs), old(queued)),
                                             tweet, saveDest, size, includeVideo);
              fs.dirs == p.state.dirs && queued == p.state.queued &&
              (if p.error.None? then r == Ok(n) && lastTweet == Some(tweet.id)
               else r == Err(p.error.value) && lastTweet == old(lastTweet))
    {
      var extracted, _ := ExtractMediaList(tweet, includeVideo);
      if extracted.Err? {
        return Err(ExtractFailed(extracted.error));
      }
      var images := extracted.value;
      var saved := SaveAll(images, tweet.idStr, saveDest, size);
      if saved.Fail? {
        return Err(saved.error);
      }
      lastTweet := Some(tweet.id);
      r := Ok(|images|);
    }

    /** The loop of `process_tweet` over `enumerate(images, 1)`. */
    method SaveAll(images: seq<string>, idStr: string, saveDest: string, size: string) returns (o: Outcome<Error>)
      requires Valid()
      modifies this, fs
      ensures Valid() && fs.files == old(fs.files) && lastTweet == old(lastTweet)
      ensures var p := SaveAllSpec(old(fs.files).Keys, SaveState(old(fs.dirs), old(queued)), images, idStr, saveDest, size, 1);
              fs.dirs == p.state.dirs && queued == p.state.queued &&
              (if o.Pass? then p.error == None else p.error == Some(o.error))
    {
      ghost var files := fs.files.Keys;
      ghost var goal := SaveAllSpec(files, SaveState(fs.dirs, queued), images, idStr, saveDest, size, 1);
      var i := 0;
      while i < |images|
        invariant 0 <= i <= |images|
        invariant Valid() && fs.files == old(fs.files) && lastTweet == old(lastTweet)
        invariant goal == SaveAllSpec(files, SaveState(fs.dirs, queued), images[i..], idStr, saveDest, size, i + 1)
      {
        ghost var before := SaveState(fs.dirs, queued);
        SaveAllUnfold(files, before, images[i..], idStr, saveDest, size, i + 1);
        var o := SaveMedia(images[i], saveDest, MediaName(idStr, i + 1), size);
        if o.Fail? {
          return o;
        }
        assert images[i..][1..] == images[i + 1..];
        i := i + 1;
      }
      assert images[i..] == [];
      o := Pass;
    }

    /** The body of the page loop of `download_images_of_user`: every tweet of the page in
        turn, in the default size `large`, until one raises. */
    method ProcessPage(tweets: seq<Tweet>, saveDest: string, includeVideo: bool) returns (o: Outcome<Error>)
      requires Valid()
      modifies this, fs
      ensures Valid() && fs.files == old(fs.files)
      ensures var r := PageSpec(old(fs.files).Keys, old(Snapshot()), tweets, saveDest, includeVideo);
              Snapshot() == r.state && (if o.Pass? then r.error == None else r.error == Some(o.error))
      ensures o.Pass? && |tweets| > 0 ==> lastTweet == Some(tweets[|tweets| - 1].id)
    {
      ghost var files := fs.files.Keys;
      ghost var goal := PageSpec(files, Snapshot(), tweets, saveDest, includeVideo);
      var j := 0;
      while j < |tweets|
        invariant 0 <= j <= |tweets|
        invariant Valid() && fs.files == old(fs.files)
        invariant goal == PageSpec(files, Snapshot(), tweets[j..], saveDest, includeVideo)
      {
        ghost var before := Snapshot();
        var r := ProcessTweet(tweets[j], saveDest, "large", includeVideo);
        assert tweets[j..][0] == tweets[j] && tweets[j..][1..] == tweets[j + 1..];
        ghost var step := TweetStep(files, before, tweets[j], saveDest, includeVideo);
        assert Snapshot() == step.state;
        if r.Err? {
          assert goal == step;
          return Fail(r.error);
        }
        j := j + 1;
      }
      assert tweets[j..] == [];
      o := Pass;
      if |tweets| > 0 {
        PageSpecCursor(files, old(Snapshot()), tweets, saveDest, includeVideo);
      }
    }

    /** `download_images_of_user(user, save_dest, size, limit, rts, include_video)` against the
        timeline API `api`. Unless the save destination is a directory, `prepare_dir` is applied
        to it as written; then pages are fetched and every tweet of a page processed, until a
        page is empty or `limit` tweets have been checked. Returns the pages processed; the last
        one is incomplete if a tweet raised. `size` is not passed on: every media is saved in
        the default size `large`. */
    method DownloadImagesOfUser(api: Request -> ApiResponse, user: string, saveDest: string,
                                size: string, limit: int, rts: bool, includeVideo: bool)
      returns (o: Outcome<Error>, pages: seq<seq<Tweet>>)
      requires Valid()
      modifies this, fs
      ensures Valid() && fs.files == old(fs.files)
      ensures var r := DownloadSpec(old(fs.files).Keys, old(Snapshot()), api, user, saveDest, limit, rts, includeVideo);
              Snapshot() == r.state && (if o.Pass? then r.error == None else r.error == Some(o.error))
      ensures EntryCheck(old(fs.dirs), old(fs.files).Keys, saveDest).Err? ==> pages == []
      ensures o.Pass? ==> pages == Pages(api, user, limit, old(lastTweet), 0, rts)
      ensures o.Fail? ==> IsPrefix(pages, Pages(api, user, limit, old(lastTweet), 0, rts))
    {
      if saveDest !in fs.dirs {
        var prepared := fs.PrepareDir(saveDest);
        if prepared.Fail? {
          return Fail(InvalidDownloadPath(prepared.error)), [];
        }
      }
      o, pages := ProcessTimeline(api, user, limit, rts, saveDest, includeVideo);
    }

    /** The page loop of `download_images_of_user`, from the current cursor: it processes the
        pages `Pages` defines until a tweet raises. */
    method ProcessTimeline(api: Request -> ApiResponse, user: string, limit: int, rts: bool,
                           saveDest: string, includeVideo: bool)
      returns (o: Outcome<Error>, pages: seq<seq<Tweet>>)
      requires Valid()
      modifies this, fs
      ensures Valid() && fs.files == old(fs.files)
      ensures var r := RunSpec(old(fs.files).Keys, old(Snapshot()), Pages(api, user, limit, old(lastTweet), 0, rts),
                               saveDest, includeVideo);
              Snapshot() == r.state && (if o.Pass? then r.error == None else r.error == Some(o.error))
      ensures o.Pass? ==> pages == Pages(api, user, limit, old(lastTweet), 0, rts)
      ensures o.Fail? ==> IsPrefix(pages, Pages(api, user, limit, old(lastTweet), 0, rts))
    {
      var tweets := GetTweets(api, user, lastTweet, limit, rts);
      o, pages := PageLoop(api, user, limit, tweets, rts, saveDest, includeVideo,
                           Pages(api, user, limit, lastTweet, 0, rts),
                           RunSpec(fs.files.Keys, Snapshot(), Pages(api, user, limit, lastTweet, 0, rts),
                                   saveDest, includeVideo));
    }

    /** The loop of the run: `tweets` is the first page fetched from the current cursor, `all`
        the pages the run will see and `goal` the fold of the run over them. The loop ends in
        the state of `goal`, with its error, and has processed every page of `all` when it
        passes and the pages up to the failing one otherwise. */
    method PageLoop(api: Request -> ApiResponse, user: string, limit: int, tweets: seq<Tweet>, rts: bool,
                    saveDest: string, includeVideo: bool, ghost all: seq<seq<Tweet>>, ghost goal: RunProgress)
      returns (o: Outcome<Error>, pages: seq<seq<Tweet>>)
      requires Valid() && tweets == GetTweets(api, user, lastTweet, limit, rts)
      requires all == Pages(api, user, limit, lastTweet, 0, rts)
      requires goal == RunSpec(fs.files.Keys, Snapshot(), all, saveDest, includeVideo)
      modifies this, fs
      ensures Valid() && fs.files == old(fs.files)
      ensures Snapshot() == goal.state && (if o.Pass? then goal.error == None else goal.error == Some(o.error))
      ensures o.Pass? ==> pages == all
      ensures o.Fail? ==> IsPrefix(pages, all)
    {
      pages := [];
      var checked := 0;
      var pageRts := rts;
      var page := tweets;
      ghost var files := fs.files.Keys;
      ghost var rest := all;
      while |page| > 0 && checked < limit
        invariant page == GetTweets(api, user, lastTweet, limit, pageRts)
        invariant rest == Pages(api, user, limit, lastTweet, checked, pageRts)
        invariant Remains(all, pages, rest)
        invariant Valid() && fs.files.Keys == files && fs.files == old(fs.files)
        invariant goal == RunSpec(files, Snapshot(), rest, saveDest, includeVideo)
        decreases limit - checked
      {
        var processed, nextPage;
        ghost var next: seq<seq<Tweet>>;
        processed, nextPage, next := ProcessAndFetch(api, user, limit, page, saveDest, includeVideo,
                                                     checked, pageRts, all, pages, rest, goal, files);
        if processed.Fail? {
          return Fail(processed.error), pages + [page];
        }
        checked := checked + |page|;
        pages := pages + [page];
        rest := next;
        pageRts := false;
        page := nextPage;
      }
      PagesStep(api, user, limit, lastTweet, checked, pageRts);
      RemainsEnd(all, pages);
      o := Pass;
    }

    /** One turn of the page loop: process every tweet of the page, then fetch the next page
        from the new cursor, without retweets. The page heads the pages `rest` still to come,
        which follow the pages done in `all`; processing it stops the run in the state of
        `goal` if a tweet raises, and otherwise leaves the rest of the run to the pages after
        it, from the cursor the page set. */
    method ProcessAndFetch(api: Request -> ApiResponse, user: string, limit: int, tweets: seq<Tweet>,
                           saveDest: string, includeVideo: bool, ghost checked: int, ghost rts: bool,
                           ghost all: seq<seq<Tweet>>, ghost pages: seq<seq<Tweet>>, ghost rest: seq<seq<Tweet>>,
                           ghost goal: RunProgress, ghost files: set<string>)
      returns (o: Outcome<Error>, next: seq<Tweet>, ghost later: seq<seq<Tweet>>)
      requires Valid() && fs.files.Keys == files && |tweets| > 0 && checked < limit
      requires tweets == GetTweets(api, user, lastTweet, limit, rts)
      requires rest == Pages(api, user, limit, lastTweet, checked, rts)
      requires Remains(all, pages, rest)
      requires goal == RunSpec(files, Snapshot(), rest, saveDest, includeVideo)
      modifies this, fs
      ensures Valid() && fs.files == old(fs.files)
      ensures IsPrefix(pages + [tweets], all)
      ensures o.Fail? ==> Snapshot() == goal.state && goal.error == Some(o.error)
      ensures o.Pass? ==> next == GetTweets(api, user, lastTweet, limit, false)
                          && later == Pages(api, user, limit, lastTweet, checked + |tweets|, false)
                          && Remains(all, pages + [tweets], later)
                          && goal == RunSpec(files, Snapshot(), later, saveDest, includeVideo)
    {
      later := Pages(api, user, limit, Some(tweets[|tweets| - 1].id), checked + |tweets|, false);
      PagesCons(api, user, limit, lastTweet, checked, rts, tweets);
      AdvancePage(all, pages, tweets, later);
      RunSpecCons(files, Snapshot(), tweets, later, saveDest, includeVideo);
      o := ProcessPage(tweets, saveDest, includeVideo);
      next := [];
      if o.Pass? {
        next := GetTweets(api, user, lastTweet, limit, false);
      }
    }
  }
}
