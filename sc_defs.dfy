/** The records the follower fetcher decodes from the API, and the cursor logic of a
    paginated collection: whether another page exists, whether no request has been
    issued yet, and which offset the next request asks for. */
module ScDefs {
  import opened Wrappers
  import opened RustStr

  /** The account whose followers are fetched (`id` is an `i32`). */
  datatype User = User(id: int, username: string, followers_count: int)

  datatype Follower = Follower(avatar_url: string, username: string)

  /** One entry of a search answer; `kind` tells users apart from tracks and playlists. */
  datatype SearchResult = SearchResult(id: int, kind: string, permalink: string)

  /** One page of a paginated answer: its items and the continuation URL, if any. */
  datatype Collection<T> = Collection(collection: seq<T>, next_href: Option<string>)

  /** The marker the API puts in the URL of a placeholder avatar. */
  const DefaultAvatarMarker: string := "default_avatar"

  /** The cursor a fresh collection carries before any request has been issued. */
  const FirstCursor: string := "st"

  /** What `get_next_href_offset` answers for a collection without a cursor. */
  const NoMore: string := "no more"

  /** True exactly when the avatar URL contains the placeholder marker somewhere. */
  predicate HaveDefaultAvatar(f: Follower)
    ensures HaveDefaultAvatar(f) <==> exists i :: OccursAt(f.avatar_url, DefaultAvatarMarker, i)
  {
    Contains(f.avatar_url, DefaultAvatarMarker)
  }

  predicate IsAnUser(s: SearchResult)
  {
    s.kind == "user"
  }

  /** Another page exists exactly when the cursor is present and not empty. */
  predicate HaveNextHref<T>(c: Collection<T>)
    ensures HaveNextHref(c) <==> c.next_href != None && c.next_href != Some("")
  {
    match c.next_href
    case Some(v) => |v| != 0
    case None => false
  }

  /** The sentinel cursor marks the first request; it is itself a non-empty cursor,
      so a collection in the first-request state always has a next page. */
  predicate IsFirst<T>(c: Collection<T>)
    ensures IsFirst(c) <==> c.next_href == Some(FirstCursor)
    ensures IsFirst(c) ==> HaveNextHref(c)
  {
    match c.next_href
    case Some(v) => v == FirstCursor
    case None => false
  }

  /** The first query field of a URL: the text after its first `?` up to any second `?`,
      cut at its first `&`. */
  function QueryField(v: string): string
  {
    Upto(Upto(After(v, '?'), '?'), '&')
  }

  /** The cursor can be read: either there is none, or it has a `?` and its first query
      field has an `=`. */
  predicate OffsetReadable<T>(c: Collection<T>)
  {
    match c.next_href
    case None => true
    case Some(v) => '?' in v && '=' in QueryField(v)
  }

  /** Readability is exactly the condition under which both `[1]` indexings of the
      `split` chain stay in bounds; otherwise the source panics. */
  lemma OffsetReadableInBounds<T>(c: Collection<T>)
    requires c.next_href.Some?
    ensures var v := c.next_href.value;
            OffsetReadable(c) <==>
              |Split(v, '?')| > 1 && |Split(Split(Split(v, '?')[1], '&')[0], '=')| > 1
  {
    var v := c.next_href.value;
    SplitPieces(v, '?');
    if '?' in v {
      SplitPieces(Split(v, '?')[1], '&');
      SplitPieces(QueryField(v), '=');
    }
  }

  /** The value of the first query field of the cursor, whatever that field's key is, or
      "no more" when there is no cursor: the text between the first and the second `=`
      of that field. The result holds none of the URL separators `?`, `&` and `=`. */
  function GetNextHrefOffset<T>(c: Collection<T>): (r: string)
    requires OffsetReadable(c)
    ensures c.next_href == None ==> r == NoMore
    ensures c.next_href != None ==> r == Upto(After(QueryField(c.next_href.value), '='), '=')
    ensures c.next_href != None ==> '?' !in r && '&' !in r && '=' !in r
  {
    match c.next_href
    case None => NoMore
    case Some(v) =>
      OffsetReadableInBounds(c);
      var field := Split(Split(v, '?')[1], '&')[0];
      SplitPieces(v, '?');
      SplitPieces(Split(v, '?')[1], '&');
      SplitPieces(field, '=');
      UptoWithin(After(v, '?'), '?');
      UptoWithin(Upto(After(v, '?'), '?'), '&');
      AfterWithin(field, '=');
      UptoWithin(After(field, '='), '=');
      Split(field, '=')[1]
  }

  /** The first query field of `prefix?field` optionally followed by `&...` is `field`. */
  lemma QueryFieldOf(prefix: string, field: string, tail: string)
    requires '?' !in prefix && '?' !in field && '&' !in field
    requires tail == "" || tail[0] == '&'
    ensures '?' in prefix + "?" + field + tail
    ensures QueryField(prefix + "?" + field + tail) == field
  {
    var v := prefix + "?" + field + tail;
    assert v == prefix + ['?'] + (field + tail);
    assert v[|prefix|] == '?';
    ScanAt(prefix, field + tail, '?');
    ScanPast(field, tail, '?');
    var t := Upto(tail, '?');
    assert t == "" || t[0] == '&';
    ScanPast(field, t, '&');
    assert Upto(t, '&') == "";
    assert field + "" == field;
  }

  /** The value read from a field `key=value` is `value`. */
  lemma ValueOfField(key: string, value: string)
    requires '=' !in key && '=' !in value
    ensures '=' in key + "=" + value
    ensures Upto(After(key + "=" + value, '='), '=') == value
  {
    assert key + "=" + value == key + ['='] + value;
    assert (key + "=" + value)[|key|] == '=';
    ScanAt(key, value, '=');
    ScanPast(value, "", '=');
    assert value + "" == value;
  }

  /** For a cursor `prefix?key=value` optionally followed by `&...`, the offset read is
      `value`. */
  lemma OffsetOfCursor<T>(c: Collection<T>, prefix: string, key: string, value: string, tail: string)
    requires c.next_href == Some(prefix + "?" + key + "=" + value + tail)
    requires '?' !in prefix
    requires '?' !in key && '&' !in key && '=' !in key
    requires '?' !in value && '&' !in value && '=' !in value
    requires tail == "" || tail[0] == '&'
    ensures OffsetReadable(c) && GetNextHrefOffset(c) == value
  {
    var field := key + "=" + value;
    assert prefix + "?" + key + "=" + value + tail == prefix + "?" + field + tail;
    QueryFieldOf(prefix, field, tail);
    ValueOfField(key, value);
  }

  /** The key of the first query field is never checked: a cursor whose query starts with
      `limit=200` yields "200", whatever offset follows. */
  lemma OffsetIgnoresKeyName<T>(c: Collection<T>, prefix: string, offset: string)
    requires c.next_href == Some(prefix + "?limit=200&offset=" + offset)
    requires '?' !in prefix
    ensures OffsetReadable(c) && GetNextHrefOffset(c) == "200"
  {
    assert prefix + "?limit=200&offset=" + offset
        == prefix + "?" + "limit" + "=" + "200" + ("&offset=" + offset);
    OffsetOfCursor(c, prefix, "limit", "200", "&offset=" + offset);
  }
}
