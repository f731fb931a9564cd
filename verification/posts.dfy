/**
 * Blog posts as the stores receive them from the content API, reduced to
 * the fields the stores compute with, and the list operations the stores
 * apply to them.
 */
module Posts {
  import opened Wrappers
  import opened Geo
  import CountryRelations
  import OrderedMaps

  /**
   * A post: its id and date, an optional stored country code, an optional
   * location, the flight flag, and the ids of its images if it has any.
   * A field the request did not ask for is `None`.
   */
  datatype Post = Post(
    id: string,
    date: string,
    countryCode: Option<string>,
    location: Option<Point>,
    isFlight: bool,
    images: Option<seq<string>>)

  /** The country lookup the stores call for a located post. */
  type Lookup = Point -> Option<string>

  /** `toReversed()` / `reverse()`. */
  function Reverse<T>(s: seq<T>): (r: seq<T>)
    ensures |r| == |s|
    ensures forall i :: 0 <= i < |s| ==> r[i] == s[|s| - 1 - i]
  {
    if |s| == 0 then [] else [s[|s| - 1]] + Reverse(s[..|s| - 1])
  }

  /** Reversing twice gives the list back. */
  lemma ReverseReverse<T>(s: seq<T>)
    ensures Reverse(Reverse(s)) == s
  {
  }

  /** `posts.filter((post) => post.location)`: the located posts, in order. */
  function Located(posts: seq<Post>): (r: seq<Post>)
    ensures |r| <= |posts|
    ensures forall i :: 0 <= i < |r| ==> r[i].location.Some?
  {
    if |posts| == 0 then []
    else Located(posts[..|posts| - 1]) + (if posts[|posts| - 1].location.Some? then [posts[|posts| - 1]] else [])
  }

  /** A post is kept by the filter exactly when it has a location. */
  lemma {:induction false} LocatedMember(posts: seq<Post>, p: Post)
    ensures p in Located(posts) <==> p in posts && p.location.Some?
    decreases |posts|
  {
    if |posts| > 0 {
      var init := posts[..|posts| - 1];
      LocatedMember(init, p);
      assert posts == init + [posts[|posts| - 1]];
    }
  }

  /** The filter keeps list order: the located posts of a concatenation are the concatenation of the located posts. */
  lemma {:induction false} LocatedAppend(a: seq<Post>, b: seq<Post>)
    ensures Located(a + b) == Located(a) + Located(b)
    decreases |b|
  {
    if |b| == 0 {
      assert a + b == a;
    } else {
      var b' := b[..|b| - 1];
      assert (a + b)[..|a + b| - 1] == a + b';
      LocatedAppend(a, b');
    }
  }

  /** A single post is kept exactly when it has a location. */
  lemma {:induction false} LocatedSingleton(p: Post)
    ensures Located([p]) == (if p.location.Some? then [p] else [])
  {
    assert [p][..0] == [];
  }

  /** Each post with the code it resolved to. */
  function Resolutions(posts: seq<Post>): (r: seq<CountryRelations.Resolved>)
    ensures |r| == |posts|
    ensures forall i :: 0 <= i < |posts| ==> r[i] == (posts[i].id, posts[i].countryCode)
  {
    if |posts| == 0 then [] else Resolutions(posts[..|posts| - 1]) + [(posts[|posts| - 1].id, posts[|posts| - 1].countryCode)]
  }

  predicate UniqueIds(posts: seq<Post>)
  {
    forall i, j :: 0 <= i < j < |posts| ==> posts[i].id != posts[j].id
  }

  /** With unique ids the inverse relation of the posts is exact. */
  lemma {:induction false} RelationOfPosts(posts: seq<Post>, p: string, c: string)
    requires UniqueIds(posts)
    ensures var items := Resolutions(posts);
      OrderedMaps.Get(CountryRelations.Invert(CountryRelations.Group(items)), p) == Some(c)
      <==> c != "" && exists i :: 0 <= i < |posts| && posts[i].id == p && posts[i].countryCode == Some(c)
  {
    var items := Resolutions(posts);
    assert OrderedMaps.UniqueKeys(items);
    CountryRelations.PostToCountryIsInverse(items, p, c);
    if exists i :: 0 <= i < |items| && items[i] == (p, Some(c)) {
      var i :| 0 <= i < |items| && items[i] == (p, Some(c));
      assert posts[i].id == p && posts[i].countryCode == Some(c);
    }
    if exists i :: 0 <= i < |posts| && posts[i].id == p && posts[i].countryCode == Some(c) {
      var i :| 0 <= i < |posts| && posts[i].id == p && posts[i].countryCode == Some(c);
      assert items[i] == (p, Some(c));
    }
  }
}
