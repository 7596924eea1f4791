/** The record builders of lib/helpers.js: `createPost`, `createUser` and
    `createComment` turn a client's `data` into a complete record with a
    fixed set of properties in a fixed order. A property the client may
    set keeps the supplied value when it is truthy and takes its default
    otherwise (`data.x || default`), so an empty string, 0 or `false`
    is replaced too; every other property is fixed by the builder and
    anything else in `data` is dropped. `Date.now()` is the parameter
    `now`. */
module Helpers {
  import opened Js

  /** What reading a property of `null` throws: `data = {}` replaces only
      `undefined`, so `null` data reaches `data.title`. */
  const NullData: string := "TypeError: Cannot read properties of null"

  /** `data.name` once `data = {}` has replaced `undefined`. Only an object
      has these properties; a boolean, number, string or array has none of
      the names the builders read. */
  function Field(data: JsValue, name: string): JsValue {
    if data.Obj? then Get(data.props, name) else Undefined
  }

  /** The record's `name` is the supplied value when that is truthy and
      `fallback` otherwise. */
  predicate KeepsOrDefaults(record: Props, data: JsValue, name: string, fallback: JsValue) {
    Get(record, name) == (if Truthy(Field(data, name)) then Field(data, name) else fallback)
  }

  // ------------------------------------------------------------------ posts

  const PostFields: seq<string> :=
    ["id", "title", "icon", "thumbnail", "whatnews", "description", "author", "createdAt", "links", "stats"]

  /** The version history of a post nobody has described yet. */
  const FirstVersion: JsValue :=
    Arr([Obj([("version", Num(0)), ("title", Str("First version")), ("description", Str("- First version"))])])

  const ZeroStats: JsValue :=
    Obj([("like", Num(0)), ("dislike", Num(0)), ("share", Num(0)), ("star", Num(0))])

  lemma PostFieldsDistinct()
    ensures Distinct(PostFields)
  {
  }

  /** The values of a new post's properties, in the order of `PostFields`. */
  function PostValues(id: JsValue, data: JsValue, now: int): seq<JsValue> {
    [ id,
      Or(Field(data, "title"), Str("Post")),
      Or(Field(data, "icon"), Str("_url")),
      Or(Field(data, "thumbnail"), Str("_url")),
      Or(Field(data, "whatnews"), FirstVersion),
      Or(Field(data, "description"), Str("")),
      Or(Field(data, "author"), Str("id")),
      Num(now),
      Or(Field(data, "links"), Null),
      ZeroStats ]
  }

  /** `createPost(id, data)`: a post has exactly the properties
      `PostFields`, each once, in that order. */
  function CreatePost(id: JsValue, data: JsValue, now: int): (r: Outcome<Props>)
    ensures r.Threw? <==> data == Null
    ensures r.Ok? ==> Keys(r.value) == PostFields && DistinctKeys(r.value)
  {
    if data == Null then Threw(NullData)
    else
      PostFieldsDistinct();
      Ok(Record(PostFields, PostValues(id, data, now)))
  }

  /** What each property of a new post holds: the id it was given; for the
      fields a client may set, the supplied value when truthy and the
      default otherwise; the clock; and zeroed stats whatever `data` says. */
  lemma CreatePostFields(id: JsValue, data: JsValue, now: int)
    requires data != Null
    ensures var p := CreatePost(id, data, now).value;
      && Get(p, "id") == id
      && KeepsOrDefaults(p, data, "title", Str("Post"))
      && KeepsOrDefaults(p, data, "icon", Str("_url"))
      && KeepsOrDefaults(p, data, "thumbnail", Str("_url"))
      && KeepsOrDefaults(p, data, "whatnews", FirstVersion)
      && KeepsOrDefaults(p, data, "description", Str(""))
      && KeepsOrDefaults(p, data, "author", Str("id"))
      && Get(p, "createdAt") == Num(now)
      && KeepsOrDefaults(p, data, "links", Null)
      && Get(p, "stats") == ZeroStats
  {
    PostFieldsDistinct();
    RecordGet(PostFields, PostValues(id, data, now), 0);
    RecordGet(PostFields, PostValues(id, data, now), 1);
    RecordGet(PostFields, PostValues(id, data, now), 2);
    RecordGet(PostFields, PostValues(id, data, now), 3);
    RecordGet(PostFields, PostValues(id, data, now), 4);
    RecordGet(PostFields, PostValues(id, data, now), 5);
    RecordGet(PostFields, PostValues(id, data, now), 6);
    RecordGet(PostFields, PostValues(id, data, now), 7);
    RecordGet(PostFields, PostValues(id, data, now), 8);
    RecordGet(PostFields, PostValues(id, data, now), 9);
  }

  /** A new post always has a title, icon, thumbnail, version history and
      author; its links are `null` or truthy. */
  lemma PostHasDisplayFields(id: JsValue, data: JsValue, now: int)
    requires data != Null
    ensures var p := CreatePost(id, data, now).value;
      && Truthy(Get(p, "title"))
      && Truthy(Get(p, "icon"))
      && Truthy(Get(p, "thumbnail"))
      && Truthy(Get(p, "whatnews"))
      && Truthy(Get(p, "author"))
      && (Get(p, "links") == Null || Truthy(Get(p, "links")))
  {
    CreatePostFields(id, data, now);
  }

  /** Building a post from a built post with the same clock gives it back:
      every kept value is truthy and every fixed one is what the builder
      writes. */
  lemma CreatePostIsIdempotent(id: JsValue, data: JsValue, now: int)
    requires data != Null
    ensures CreatePost(id, Obj(CreatePost(id, data, now).value), now) == CreatePost(id, data, now)
  {
    CreatePostFields(id, data, now);
  }

  // ------------------------------------------------------------------ users

  const UserFields: seq<string> :=
    ["id", "username", "email", "displayName", "avatar", "bio", "createdAt", "favorites", "following", "followers"]

  lemma UserFieldsDistinct()
    ensures Distinct(UserFields)
  {
  }

  /** The values of a new user's properties, in the order of `UserFields`. */
  function UserValues(id: JsValue, data: JsValue, now: int): seq<JsValue> {
    [ id,
      Or(Field(data, "username"), Str("user")),
      Or(Field(data, "email"), Str("")),
      Or(Field(data, "displayName"), Str("User")),
      Or(Field(data, "avatar"), Str("_url")),
      Or(Field(data, "bio"), Str("")),
      Num(now),
      Arr([]),
      Arr([]),
      Arr([]) ]
  }

  /** `createUser(id, data)`: a user has exactly the properties
      `UserFields`, each once, in that order. */
  function CreateUser(id: JsValue, data: JsValue, now: int): (r: Outcome<Props>)
    ensures r.Threw? <==> data == Null
    ensures r.Ok? ==> Keys(r.value) == UserFields && DistinctKeys(r.value)
  {
    if data == Null then Threw(NullData)
    else
      UserFieldsDistinct();
      Ok(Record(UserFields, UserValues(id, data, now)))
  }

  /** What each property of a new user holds: the kept or defaulted
      profile fields, the clock, and three empty lists whatever `data`
      says. */
  lemma CreateUserFields(id: JsValue, data: JsValue, now: int)
    requires data != Null
    ensures var u := CreateUser(id, data, now).value;
      && Get(u, "id") == id
      && KeepsOrDefaults(u, data, "username", Str("user"))
      && KeepsOrDefaults(u, data, "email", Str(""))
      && KeepsOrDefaults(u, data, "displayName", Str("User"))
      && KeepsOrDefaults(u, data, "avatar", Str("_url"))
      && KeepsOrDefaults(u, data, "bio", Str(""))
      && Get(u, "createdAt") == Num(now)
      && Get(u, "favorites") == Arr([])
      && Get(u, "following") == Arr([])
      && Get(u, "followers") == Arr([])
  {
    UserFieldsDistinct();
    RecordGet(UserFields, UserValues(id, data, now), 0);
    RecordGet(UserFields, UserValues(id, data, now), 1);
    RecordGet(UserFields, UserValues(id, data, now), 2);
    RecordGet(UserFields, UserValues(id, data, now), 3);
    RecordGet(UserFields, UserValues(id, data, now), 4);
    RecordGet(UserFields, UserValues(id, data, now), 5);
    RecordGet(UserFields, UserValues(id, data, now), 6);
    RecordGet(UserFields, UserValues(id, data, now), 7);
    RecordGet(UserFields, UserValues(id, data, now), 8);
    RecordGet(UserFields, UserValues(id, data, now), 9);
  }

  /** Building a user from a built user with the same clock gives it back. */
  lemma CreateUserIsIdempotent(id: JsValue, data: JsValue, now: int)
    requires data != Null
    ensures CreateUser(id, Obj(CreateUser(id, data, now).value), now) == CreateUser(id, data, now)
  {
    CreateUserFields(id, data, now);
  }

  // --------------------------------------------------------------- comments

  const CommentFields: seq<string> :=
    ["id", "postId", "userId", "text", "timestamp", "likes", "dislikes", "replies"]

  lemma CommentFieldsDistinct()
    ensures Distinct(CommentFields)
  {
  }

  /** The values of a new comment's properties, in the order of `CommentFields`. */
  function CommentValues(id: JsValue, data: JsValue, now: int): seq<JsValue> {
    [ id,
      Field(data, "postId"),
      Or(Field(data, "userId"), Str("anonymous")),
      Or(Field(data, "text"), Str("")),
      Num(now),
      Num(0),
      Num(0),
      Arr([]) ]
  }

  /** `createComment(id, data)`: a comment has exactly the properties
      `CommentFields`, each once, in that order. */
  function CreateComment(id: JsValue, data: JsValue, now: int): (r: Outcome<Props>)
    ensures r.Threw? <==> data == Null
    ensures r.Ok? ==> Keys(r.value) == CommentFields && DistinctKeys(r.value)
  {
    if data == Null then Threw(NullData)
    else
      CommentFieldsDistinct();
      Ok(Record(CommentFields, CommentValues(id, data, now)))
  }

  /** What each property of a new comment holds: `postId` copied as
      supplied, even when it is missing (then the property holds
      `undefined`); the kept or defaulted author and text; the clock; and
      no likes, dislikes or replies whatever `data` says. */
  lemma CreateCommentFields(id: JsValue, data: JsValue, now: int)
    requires data != Null
    ensures var c := CreateComment(id, data, now).value;
      && Get(c, "id") == id
      && Get(c, "postId") == Field(data, "postId")
      && KeepsOrDefaults(c, data, "userId", Str("anonymous"))
      && KeepsOrDefaults(c, data, "text", Str(""))
      && Get(c, "timestamp") == Num(now)
      && Get(c, "likes") == Num(0)
      && Get(c, "dislikes") == Num(0)
      && Get(c, "replies") == Arr([])
  {
    CommentFieldsDistinct();
    RecordGet(CommentFields, CommentValues(id, data, now), 0);
    RecordGet(CommentFields, CommentValues(id, data, now), 1);
    RecordGet(CommentFields, CommentValues(id, data, now), 2);
    RecordGet(CommentFields, CommentValues(id, data, now), 3);
    RecordGet(CommentFields, CommentValues(id, data, now), 4);
    RecordGet(CommentFields, CommentValues(id, data, now), 5);
    RecordGet(CommentFields, CommentValues(id, data, now), 6);
    RecordGet(CommentFields, CommentValues(id, data, now), 7);
  }

  /** A comment built without a `postId` serialises without one:
      `JSON.stringify` drops the `undefined` property. */
  lemma CommentWithoutPostIdOmitsIt(id: JsValue, data: JsValue, now: int)
    requires data != Null && Field(data, "postId") == Undefined
    ensures var c := CreateComment(id, data, now).value;
      Stringify(Obj(c)) == Stringify(Obj(Defined(c))) && "postId" !in Keys(Defined(c))
  {
    var c := CreateComment(id, data, now).value;
    StringifyIgnoresUndefined(c);
    CreateCommentFields(id, data, now);
    UndefinedIsNotDefined(c, "postId");
  }

  /** Building a comment from a built comment with the same clock gives it
      back. */
  lemma CreateCommentIsIdempotent(id: JsValue, data: JsValue, now: int)
    requires data != Null
    ensures CreateComment(id, Obj(CreateComment(id, data, now).value), now) == CreateComment(id, data, now)
  {
    CreateCommentFields(id, data, now);
  }
}
