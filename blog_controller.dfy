/**
 * The blog handlers: create a post, list all posts or the caller's own posts
 * newest first and a page at a time, read one post, and update or delete a post
 * its author owns.
 */
module BlogController {
  import opened Wrappers
  import opened JsText
  import opened Json
  import opened Jwt
  import opened UserModel
  import opened ErrorHandler

  /** One blog post. Times are in seconds. */
  datatype Blog = Blog(
    id: string,
    title: string,
    content: string,
    author: UserId,
    createdAt: nat,
    updatedAt: nat)

  /**
   * `mongoose.Types.ObjectId.isValid(id)`: 24 hexadecimal digits, or any
   * string of length 12 (read as twelve raw bytes).
   */
  function IsValidObjectId(id: string): (valid: bool)
    ensures |id| == 12 ==> valid
    ensures |id| == 24 ==> (valid <==> forall i :: 0 <= i < 24 ==> DigitValue(id[i], 16).Some?)
    ensures |id| != 12 && |id| != 24 ==> !valid
  {
    (|id| == 24 && forall i :: 0 <= i < 24 ==> DigitValue(id[i], 16).Some?) || |id| == 12
  }

  // ---------------------------------------------------------------------
  // Pagination
  // ---------------------------------------------------------------------

  /** `parseInt(q) || fallback`: a missing, unreadable or zero parameter takes the fallback. */
  function PageParam(q: Option<string>, fallback: int): (n: int)
    ensures q.None? ==> n == fallback
    ensures q.Some? && ParseInt(q.value).Some? && ParseInt(q.value).value != 0 ==> n == ParseInt(q.value).value
    ensures q.Some? && (ParseInt(q.value).None? || ParseInt(q.value) == Some(0)) ==> n == fallback
    ensures fallback != 0 ==> n != 0
  {
    if q.None? then fallback
    else match ParseInt(q.value)
      case None => fallback
      case Some(v) => if v == 0 then fallback else v
  }

  /** The query parameter written by the client for page `n` reads back as `n`. */
  lemma PageParamOfRendered(n: int, fallback: int)
    requires n != 0
    ensures PageParam(Some(IntToString(n)), fallback) == n
  {
    ParseIntOfIntToString(n);
  }

  /** `(page - 1) * limit`. */
  function Skip(page: int, limit: int): (skip: int)
    ensures page == 1 ==> skip == 0
    ensures page >= 1 && limit >= 0 ==> skip >= 0
    ensures limit > 0 ==> (skip < 0 <==> page < 1)
  {
    (page - 1) * limit
  }

  /**
   * `.skip(skip).limit(limit)` on the sorted documents `s`: at most `|limit|`
   * documents from position `skip` on (a negative limit asks for one batch of
   * `-limit` documents, so it caps the page the same way).
   */
  function Window(s: seq<Blog>, skip: nat, limit: int): (r: seq<Blog>)
    ensures |r| <= (if limit < 0 then -limit else limit)
    ensures skip <= |s| ==> |r| == Min(|s| - skip, if limit < 0 then -limit else limit)
    ensures skip >= |s| ==> r == []
    ensures forall i :: 0 <= i < |r| ==> skip + i < |s| && r[i] == s[skip + i]
  {
    var n := if limit < 0 then -limit else limit;
    var lo := Min(skip, |s|);
    var hi := Min(skip + n, |s|);
    s[lo..hi]
  }

  function Min(a: int, b: int): int
  {
    if a <= b then a else b
  }

  /** `total > skip + blogs.length`. */
  function HasMore(total: nat, skip: nat, count: nat): (more: bool)
    ensures more ==> skip < total
    ensures count == 0 ==> (more <==> skip < total)
    ensures skip + count >= total ==> !more
  {
    total > skip + count
  }

  /**
   * With a positive limit, `hasMore` on one page is true exactly when the
   * next page is not empty.
   */
  lemma HasMoreIffNextPageNonEmpty(s: seq<Blog>, skip: nat, limit: nat)
    requires limit > 0
    ensures HasMore(|s|, skip, |Window(s, skip, limit)|) <==> Window(s, skip + limit, limit) != []
  {
    if skip < |s| && skip + limit < |s| {
      assert Window(s, skip + limit, limit)[0] == s[skip + limit];
    }
  }

  /** The page numbered `page` of `s` with `limit` documents per page. */
  function PageOf(s: seq<Blog>, page: nat, limit: nat): seq<Blog>
    requires page >= 1
  {
    Window(s, Skip(page, limit), limit)
  }

  /** The pages 1 to `k`, one after the other. */
  function Pages(s: seq<Blog>, k: nat, limit: nat): seq<Blog>
  {
    if k == 0 then [] else Pages(s, k - 1, limit) + PageOf(s, k, limit)
  }

  /**
   * Walking the pages one after the other lists the sorted documents in order,
   * with no document skipped or repeated: pages 1 to `k` are the first
   * `k * limit` documents.
   */
  lemma {:induction false} PagesTile(s: seq<Blog>, k: nat, limit: nat)
    ensures Pages(s, k, limit) == s[..Min(k * limit, |s|)]
  {
    if k > 0 {
      PagesTile(s, k - 1, limit);
      var lo := Min((k - 1) * limit, |s|);
      var hi := Min(k * limit, |s|);
      assert Skip(k, limit) == (k - 1) * limit;
      assert PageOf(s, k, limit) == s[lo..hi];
      assert s[..lo] + s[lo..hi] == s[..hi];
    }
  }

  // ---------------------------------------------------------------------
  // Ordering
  // ---------------------------------------------------------------------

  /** `.sort({createdAt: -1})`: newest first. */
  ghost predicate IsNewestFirst(s: seq<Blog>)
  {
    forall i, j :: 0 <= i < j < |s| ==> s[i].createdAt >= s[j].createdAt
  }

  /** `b` placed into the sequence `s`, after every leading post at least as new. */
  function InsertNewestFirst(s: seq<Blog>, b: Blog): (r: seq<Blog>)
    ensures multiset(r) == multiset(s) + multiset{b}
    ensures |r| == |s| + 1
  {
    if s == [] then [b]
    else if s[0].createdAt >= b.createdAt then
      assert s == [s[0]] + s[1..];
      [s[0]] + InsertNewestFirst(s[1..], b)
    else
      [b] + s
  }

  /** Inserting into a newest-first sequence keeps it newest first. */
  lemma {:induction false} InsertKeepsNewestFirst(s: seq<Blog>, b: Blog)
    requires IsNewestFirst(s)
    ensures IsNewestFirst(InsertNewestFirst(s, b))
  {
    if s != [] && s[0].createdAt >= b.createdAt {
      assert s == [s[0]] + s[1..];
      InsertKeepsNewestFirst(s[1..], b);
      NewerHeadStaysInFront(s[0], s[1..], b, InsertNewestFirst(s[1..], b));
    }
  }

  /** A head at least as new as both the tail and the inserted post stays in front. */
  lemma NewerHeadStaysInFront(h: Blog, tail: seq<Blog>, b: Blog, rest: seq<Blog>)
    requires h.createdAt >= b.createdAt
    requires multiset(rest) == multiset(tail) + multiset{b}
    requires IsNewestFirst([h] + tail) && IsNewestFirst(rest)
    ensures IsNewestFirst([h] + rest)
  {
    forall j | 0 <= j < |rest| ensures h.createdAt >= rest[j].createdAt {
      assert rest[j] in multiset(rest);
      if rest[j] != b {
        assert rest[j] in multiset(tail);
        assert rest[j] in tail;
        var k :| 0 <= k < |tail| && tail[k] == rest[j];
        assert ([h] + tail)[0] == h && ([h] + tail)[k + 1] == tail[k];
      }
    }
  }

  function SelectedIds(blogs: map<string, Blog>, author: Option<UserId>): set<string>
  {
    set id | id in blogs && Matches(blogs[id], author)
  }

  /** One step of walking the stored ids: `id` moves from the pending ids to the visited ones. */
  lemma SelectStep(blogs: map<string, Blog>, author: Option<UserId>, pending: set<string>, done: set<string>, id: string)
    requires id in pending && pending <= blogs.Keys
    requires done == SelectedIds(blogs, author) - pending
    ensures id !in done
    ensures Matches(blogs[id], author) ==>
      done + {id} == SelectedIds(blogs, author) - (pending - {id}) && |done + {id}| == |done| + 1
    ensures !Matches(blogs[id], author) ==> done == SelectedIds(blogs, author) - (pending - {id})
  {
  }

  /** `r` holds exactly the stored posts whose ids are in `ids`. */
  ghost predicate Listed(r: seq<Blog>, blogs: map<string, Blog>, ids: set<string>)
  {
    forall b: Blog :: b in r <==> b.id in ids && b.id in blogs && blogs[b.id] == b
  }

  /** Inserting the post stored under a new id `id` lists that id too. */
  lemma ListedInsert(r: seq<Blog>, blogs: map<string, Blog>, ids: set<string>, id: string)
    requires id in blogs && blogs[id].id == id && id !in ids
    requires Listed(r, blogs, ids)
    ensures Listed(InsertNewestFirst(r, blogs[id]), blogs, ids + {id})
  {
    var next := InsertNewestFirst(r, blogs[id]);
    forall x: Blog ensures x in next <==> x in r || x == blogs[id] {
      assert x in next <==> x in multiset(next);
      assert x in r <==> x in multiset(r);
    }
  }

  /** The filter of `find()` (`None`) or `find({author})` (`Some(author)`). */
  predicate Matches(b: Blog, author: Option<UserId>)
  {
    author.None? || b.author == author.value
  }

  /**
   * `sorted` is what `find(filter).sort({createdAt: -1})` returns: every stored
   * post the filter selects, each once, newest first.
   */
  ghost predicate IsListing(sorted: seq<Blog>, blogs: map<string, Blog>, author: Option<UserId>)
  {
    && IsNewestFirst(sorted)
    && DistinctIds(sorted)
    && |sorted| == |SelectedIds(blogs, author)|
    && Listed(sorted, blogs, SelectedIds(blogs, author))
  }

  /** No post appears twice. */
  ghost predicate DistinctIds(s: seq<Blog>)
  {
    forall i, j :: 0 <= i < j < |s| ==> s[i].id != s[j].id
  }

  /** Inserting a post whose id is new keeps the ids distinct. */
  lemma {:induction false} InsertKeepsDistinct(s: seq<Blog>, b: Blog)
    requires DistinctIds(s)
    requires forall i :: 0 <= i < |s| ==> s[i].id != b.id
    ensures DistinctIds(InsertNewestFirst(s, b))
  {
    var r := InsertNewestFirst(s, b);
    if s != [] && s[0].createdAt >= b.createdAt {
      var tail := InsertNewestFirst(s[1..], b);
      InsertKeepsDistinct(s[1..], b);
      forall j | 0 <= j < |tail| ensures s[0].id != tail[j].id {
        assert tail[j] in multiset(tail);
        if tail[j] != b {
          assert tail[j] in multiset(s[1..]);
          var k :| 0 <= k < |s[1..]| && s[1..][k] == tail[j];
          assert s[k + 1] == tail[j];
        }
      }
      forall i, j | 0 <= i < j < |r| ensures r[i].id != r[j].id {
        assert r[j] == tail[j - 1];
        if i > 0 {
          assert r[i] == tail[i - 1];
        }
      }
    } else if s != [] {
      forall i, j | 0 <= i < j < |r| ensures r[i].id != r[j].id {
        assert r[j] == s[j - 1];
        if i > 0 {
          assert r[i] == s[i - 1];
        }
      }
    }
  }

  /** No two posts the filter selects were created in the same second. */
  ghost predicate DistinctTimes(blogs: map<string, Blog>, author: Option<UserId>)
  {
    forall i, j :: i in SelectedIds(blogs, author) && j in SelectedIds(blogs, author) && i != j ==>
      blogs[i].createdAt != blogs[j].createdAt
  }

  /** Strictly newest first. */
  ghost predicate IsStrictlyNewestFirst(s: seq<Blog>)
  {
    forall i, j :: 0 <= i < j < |s| ==> s[i].createdAt > s[j].createdAt
  }

  /** Without same-second ties, a listing is strictly newest first. */
  lemma ListingStrict(s: seq<Blog>, blogs: map<string, Blog>, author: Option<UserId>)
    requires IsListing(s, blogs, author) && DistinctTimes(blogs, author)
    ensures IsStrictlyNewestFirst(s)
  {
    forall i, j | 0 <= i < j < |s| ensures s[i].createdAt > s[j].createdAt {
      assert s[i] in s && s[j] in s;
    }
  }

  /** Two strictly ordered sequences with the same elements start with the same post. */
  lemma SameNewest(a: seq<Blog>, b: seq<Blog>)
    requires IsStrictlyNewestFirst(a) && IsStrictlyNewestFirst(b)
    requires forall x :: x in a <==> x in b
    requires a != [] && b != []
    ensures a[0] == b[0]
  {
    assert a[0] in b;
    var k :| 0 <= k < |b| && b[k] == a[0];
    assert b[0] in a;
    var l :| 0 <= l < |a| && a[l] == b[0];
  }

  /** Dropping the same newest post from both leaves the same elements. */
  lemma SameAfterNewest(a: seq<Blog>, b: seq<Blog>)
    requires IsStrictlyNewestFirst(a) && IsStrictlyNewestFirst(b)
    requires forall x :: x in a <==> x in b
    requires a != [] && b != [] && a[0] == b[0]
    ensures forall x :: x in a[1..] <==> x in b[1..]
  {
    forall x ensures x in a[1..] ==> x in b[1..] {
      if x in a[1..] {
        var i :| 0 <= i < |a[1..]| && a[1..][i] == x;
        assert a[i + 1] == x && x in b;
        var m :| 0 <= m < |b| && b[m] == x;
        assert b[1..][m - 1] == x;
      }
    }
    forall x ensures x in b[1..] ==> x in a[1..] {
      if x in b[1..] {
        var i :| 0 <= i < |b[1..]| && b[1..][i] == x;
        assert b[i + 1] == x && x in a;
        var m :| 0 <= m < |a| && a[m] == x;
        assert a[1..][m - 1] == x;
      }
    }
  }

  /** Two strictly ordered sequences with the same elements are equal. */
  lemma {:induction false} StrictOrderUnique(a: seq<Blog>, b: seq<Blog>)
    requires IsStrictlyNewestFirst(a) && IsStrictlyNewestFirst(b)
    requires forall x :: x in a <==> x in b
    ensures a == b
  {
    if a != [] {
      assert a[0] in b;
    }
    if b != [] {
      assert b[0] in a;
    }
    if a != [] && b != [] {
      SameNewest(a, b);
      SameAfterNewest(a, b);
      StrictOrderUnique(a[1..], b[1..]);
      assert a == [a[0]] + a[1..];
      assert b == [b[0]] + b[1..];
    }
  }

  /**
   * When no two selected posts were created in the same second, the listing
   * is unique, so every request pages through the same order.
   */
  lemma ListingUnique(s1: seq<Blog>, s2: seq<Blog>, blogs: map<string, Blog>, author: Option<UserId>)
    requires IsListing(s1, blogs, author) && IsListing(s2, blogs, author)
    requires DistinctTimes(blogs, author)
    ensures s1 == s2
  {
    ListingStrict(s1, blogs, author);
    ListingStrict(s2, blogs, author);
    StrictOrderUnique(s1, s2);
  }

  /** Every post on any page of a listing is a stored post the filter selects. */
  lemma ListingPageMatches(sorted: seq<Blog>, blogs: map<string, Blog>, author: Option<UserId>, skip: nat, limit: int)
    requires IsListing(sorted, blogs, author)
    ensures forall b :: b in Window(sorted, skip, limit) ==> b.id in blogs && blogs[b.id] == b && Matches(b, author)
  {
    forall b | b in Window(sorted, skip, limit) ensures b.id in blogs && blogs[b.id] == b && Matches(b, author) {
      var i :| 0 <= i < |Window(sorted, skip, limit)| && Window(sorted, skip, limit)[i] == b;
      assert sorted[skip + i] == b;
    }
  }

  // ---------------------------------------------------------------------
  // Responses
  // ---------------------------------------------------------------------

  /** `populate("author", "username")`: the author's id and username, or `null` for a missing user. */
  function AuthorJson(users: seq<User>, author: UserId): Json
  {
    match FindOne(users, ById(author))
    case Some(u) => JObj([("_id", JNum(u.id)), ("username", JStr(u.username))])
    case None => JNull
  }

  function BlogJson(users: seq<User>, b: Blog): Json
  {
    JObj([("_id", JStr(b.id)), ("title", JStr(b.title)), ("content", JStr(b.content)),
          ("author", AuthorJson(users, b.author)),
          ("createdAt", JNum(b.createdAt)), ("updatedAt", JNum(b.updatedAt))])
  }

  function BlogsJson(users: seq<User>, s: seq<Blog>): (j: Json)
    ensures j.JArr? && |j.items| == |s|
  {
    JArr(seq(|s|, i requires 0 <= i < |s| => BlogJson(users, s[i])))
  }

  function ListResponse(users: seq<User>, page: seq<Blog>, hasMore: bool, total: nat, currentPage: int): Response
  {
    Response(200, JObj([("status", JStr("success")),
                        ("data", JObj([("blogs", BlogsJson(users, page)), ("hasMore", JBool(hasMore)),
                                       ("total", JNum(total)), ("currentPage", JNum(currentPage))]))]))
  }

  /**
   * `res` is the listing response for `page` and `limit`: the page cut from a
   * listing of the selected posts, with `total` counting every selected post.
   */
  ghost predicate ListsPage(blogs: map<string, Blog>, author: Option<UserId>, page: int, limit: int,
                            users: seq<User>, res: Response)
  {
    && Skip(page, limit) >= 0
    && exists sorted :: IsListing(sorted, blogs, author) &&
         var docs := Window(sorted, Skip(page, limit), limit);
         var total := |SelectedIds(blogs, author)|;
         res == ListResponse(users, docs, HasMore(total, Skip(page, limit), |docs|), total, page)
  }

  function CreatedResponse(users: seq<User>, b: Blog): Response
  {
    Response(201, JObj([("status", JStr("success")), ("data", BlogJson(users, b)),
                        ("message", JStr("Blog created successfully"))]))
  }

  function MessageResponse(code: nat, message: string): Response
  {
    Response(code, JObj([("message", JStr(message))]))
  }

  function InvalidIdResponse(): Response { MessageResponse(400, "Invalid blog ID") }

  function NotFoundResponse(): Response { MessageResponse(404, "Blog not found") }

  function BlogFieldErrors(title: Option<string>, content: Option<string>): Json
  {
    JObj([("title", FieldError(title, "Title is required")), ("content", FieldError(content, "Content is required"))])
  }

  function UpdateInvalidResponse(title: Option<string>, content: Option<string>): Response
  {
    Response(400, JObj([("message", JStr("Validation failed")), ("errors", BlogFieldErrors(title, content))]))
  }

  // ---------------------------------------------------------------------
  // The collection
  // ---------------------------------------------------------------------

  /** The Blog collection, keyed by id. */
  class BlogStore {
    var blogs: map<string, Blog>

    /** Every post is stored under its own id. */
    ghost predicate Valid()
      reads this
    {
      forall id :: id in blogs ==> blogs[id].id == id
    }

    constructor ()
      ensures Valid() && blogs == map[]
    {
      blogs := map[];
    }

    /** The ids `find(filter)` and `countDocuments(filter)` select. */
    function Selected(author: Option<UserId>): (ids: set<string>)
      reads this
      ensures ids <= blogs.Keys
    {
      SelectedIds(blogs, author)
    }

    /**
     * `find(filter).sort({createdAt: -1})`: every selected post exactly once,
     * newest first (posts created in the same second in some order).
     */
    method ListNewestFirst(author: Option<UserId>) returns (r: seq<Blog>)
      requires Valid()
      ensures IsListing(r, blogs, author)
    {
      r := [];
      var pending := blogs.Keys;
      ghost var done: set<string> := {};
      while pending != {}
        invariant pending <= blogs.Keys && done <= blogs.Keys
        invariant done == SelectedIds(blogs, author) - pending
        invariant IsNewestFirst(r) && DistinctIds(r)
        invariant |r| == |done|
        invariant Listed(r, blogs, done)
        decreases |pending|
      {
        var id :| id in pending;
        SelectStep(blogs, author, pending, done, id);
        if Matches(blogs[id], author) {
          InsertKeepsNewestFirst(r, blogs[id]);
          assert forall i :: 0 <= i < |r| ==> r[i].id != id by {
            forall i | 0 <= i < |r| ensures r[i].id != id {
              assert r[i] in r;
            }
          }
          InsertKeepsDistinct(r, blogs[id]);
          ListedInsert(r, blogs, done, id);
          r := InsertNewestFirst(r, blogs[id]);
          done := done + {id};
        }
        pending := pending - {id};
      }
    }

    /**
     * `createBlog` by the authenticated user `userId` at second `now`. The
     * database hands out the fresh id `id`; `users` resolves the author.
     */
    method Create(title: Option<string>, content: Option<string>, userId: UserId, id: string, now: nat,
                  users: seq<User>, stack: string) returns (out: Outcome)
      requires Valid()
      requires id !in blogs
      modifies this
      ensures Valid()
      ensures !(Truthy(title) && Truthy(content)) ==>
        && out.Next? && fresh(out.err) && out.err.stack == stack
        && IsApiError(out.err, "Validation failed", 400, BlogFieldErrors(title, content))
        && blogs == old(blogs)
      ensures Truthy(title) && Truthy(content) ==>
        var b := Blog(id, Trim(title.value), Trim(content.value), userId, now, now);
        && blogs == old(blogs)[id := b]
        && out == Reply(CreatedResponse(users, b))
    {
      if !Truthy(title) || !Truthy(content) {
        var e := new ErrorObject.Api("Validation failed", 400, Some(BlogFieldErrors(title, content)), stack);
        return Next(e);
      }
      var b := Blog(id, Trim(title.value), Trim(content.value), userId, now, now);
      blogs := blogs[id := b];
      out := Reply(CreatedResponse(users, b));
    }

    /**
     * The listing shared by `getAllBlogs` (`author` = `None`) and `getUserBlogs`
     * (`author` = the caller). A negative skip makes the query fail; the error
     * (`queryError`, the driver's message) goes to the error handler.
     */
    method List(author: Option<UserId>, pageQuery: Option<string>, limitQuery: Option<string>,
                users: seq<User>, queryError: string, stack: string) returns (out: Outcome)
      requires Valid()
      ensures Skip(PageParam(pageQuery, 1), PageParam(limitQuery, 10)) < 0 ==>
        && out.Next? && fresh(out.err) && out.err.message == queryError && out.err.stack == stack
        && out.err.statusCode.None? && out.err.status.None?
      ensures Skip(PageParam(pageQuery, 1), PageParam(limitQuery, 10)) >= 0 ==>
        out.Reply? && ListsPage(blogs, author, PageParam(pageQuery, 1), PageParam(limitQuery, 10), users, out.response)
    {
      var page := PageParam(pageQuery, 1);
      var limit := PageParam(limitQuery, 10);
      var skip := Skip(page, limit);
      if skip < 0 {
        var e := new ErrorObject.Internal(queryError, stack);
        return Next(e);
      }
      var sorted := ListNewestFirst(author);
      var total := |Selected(author)|;
      var docs := Window(sorted, skip, limit);
      var hasMore := total > skip + |docs|;
      out := Reply(ListResponse(users, docs, hasMore, total, page));
    }

    /** `getAllBlogs`: every post is listed and counted. */
    method GetAll(pageQuery: Option<string>, limitQuery: Option<string>, users: seq<User>,
                  queryError: string, stack: string) returns (out: Outcome)
      requires Valid()
      ensures Skip(PageParam(pageQuery, 1), PageParam(limitQuery, 10)) < 0 ==>
        out.Next? && fresh(out.err) && out.err.message == queryError && out.err.statusCode.None?
      ensures Skip(PageParam(pageQuery, 1), PageParam(limitQuery, 10)) >= 0 ==>
        out.Reply? && ListsPage(blogs, None, PageParam(pageQuery, 1), PageParam(limitQuery, 10), users, out.response)
    {
      out := List(None, pageQuery, limitQuery, users, queryError, stack);
    }

    /** `getUserBlogs` for the authenticated user `userId`: only that user's posts are listed and counted. */
    method GetUser(userId: UserId, pageQuery: Option<string>, limitQuery: Option<string>, users: seq<User>,
                   queryError: string, stack: string) returns (out: Outcome)
      requires Valid()
      ensures Skip(PageParam(pageQuery, 1), PageParam(limitQuery, 10)) < 0 ==>
        out.Next? && fresh(out.err) && out.err.message == queryError && out.err.statusCode.None?
      ensures Skip(PageParam(pageQuery, 1), PageParam(limitQuery, 10)) >= 0 ==>
        out.Reply? && ListsPage(blogs, Some(userId), PageParam(pageQuery, 1), PageParam(limitQuery, 10), users, out.response)
    {
      out := List(Some(userId), pageQuery, limitQuery, users, queryError, stack);
    }

    /** `getBlogById`. */
    method GetById(id: string, users: seq<User>) returns (res: Response)
      ensures !IsValidObjectId(id) ==> res == InvalidIdResponse()
      ensures IsValidObjectId(id) && id !in blogs ==> res == NotFoundResponse()
      ensures IsValidObjectId(id) && id in blogs ==> res == Response(200, BlogJson(users, blogs[id]))
    {
      if !IsValidObjectId(id) {
        return InvalidIdResponse();
      }
      if id !in blogs {
        return NotFoundResponse();
      }
      res := Response(200, BlogJson(users, blogs[id]));
    }

    /** `updateBlog` by the authenticated user `userId` at second `now`. */
    method Update(id: string, title: Option<string>, content: Option<string>, userId: UserId, now: nat,
                  users: seq<User>) returns (res: Response)
      requires Valid()
      modifies this
      ensures Valid()
      ensures !IsValidObjectId(id) ==> res == InvalidIdResponse() && blogs == old(blogs)
      ensures IsValidObjectId(id) && !(Truthy(title) && Truthy(content)) ==>
        res == UpdateInvalidResponse(title, content) && blogs == old(blogs)
      ensures IsValidObjectId(id) && Truthy(title) && Truthy(content) && id !in old(blogs) ==>
        res == NotFoundResponse() && blogs == old(blogs)
      ensures IsValidObjectId(id) && Truthy(title) && Truthy(content) && id in old(blogs) && old(blogs)[id].author != userId ==>
        res == MessageResponse(403, "Not authorized to update this blog") && blogs == old(blogs)
      ensures IsValidObjectId(id) && Truthy(title) && Truthy(content) && id in old(blogs) && old(blogs)[id].author == userId ==>
        var b := old(blogs)[id].(title := Trim(title.value), content := Trim(content.value), updatedAt := now);
        && blogs == old(blogs)[id := b]
        && res == Response(200, BlogJson(users, b))
    {
      if !IsValidObjectId(id) {
        return InvalidIdResponse();
      }
      if !Truthy(title) || !Truthy(content) {
        return UpdateInvalidResponse(title, content);
      }
      if id !in blogs {
        return NotFoundResponse();
      }
      var b := blogs[id];
      if b.author != userId {
        return MessageResponse(403, "Not authorized to update this blog");
      }
      b := b.(title := Trim(title.value), content := Trim(content.value), updatedAt := now);
      blogs := blogs[id := b];
      res := Response(200, BlogJson(users, b));
    }

    /** `deleteBlog` by the authenticated user `userId`. */
    method Delete(id: string, userId: UserId) returns (res: Response)
      requires Valid()
      modifies this
      ensures Valid()
      ensures !IsValidObjectId(id) ==> res == InvalidIdResponse() && blogs == old(blogs)
      ensures IsValidObjectId(id) && id !in old(blogs) ==> res == NotFoundResponse() && blogs == old(blogs)
      ensures IsValidObjectId(id) && id in old(blogs) && old(blogs)[id].author != userId ==>
        res == MessageResponse(403, "Not authorized to delete this blog") && blogs == old(blogs)
      ensures IsValidObjectId(id) && id in old(blogs) && old(blogs)[id].author == userId ==>
        res == MessageResponse(200, "Blog deleted successfully") && blogs == old(blogs) - {id}
    {
      if !IsValidObjectId(id) {
        return InvalidIdResponse();
      }
      if id !in blogs {
        return NotFoundResponse();
      }
      if blogs[id].author != userId {
        return MessageResponse(403, "Not authorized to delete this blog");
      }
      blogs := blogs - {id};
      res := MessageResponse(200, "Blog deleted successfully");
    }
  }
}
