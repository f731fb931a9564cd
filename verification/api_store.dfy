/**
 * `initApiStores`: one guarded initialisation that fills the API stores
 * from five requests. The requests' answers are inputs (`None` for a
 * request that failed); a failed request leaves its stores unset and
 * raises the alert. The country lookup is a function of the location.
 */
module ApiStore {
  import opened Wrappers
  import opened Geo
  import opened OrderedMaps
  import opened Posts
  import CountryRelations
  import PostImages

  /** A gallery image: the file with the post it belongs to and that post's date. */
  datatype ImageDetails = ImageDetails(file: string, postId: string, date: string)

  datatype Country = Country(id: string, code: string)

  datatype SupportInfo = SupportInfo(id: string, translations: seq<string>)

  /** The writable stores; `None` is a store that was never set. */
  datatype Stores = Stores(
    posts: Option<seq<Post>>,
    postToImages: Option<OrderedMap<string, seq<ImageDetails>>>,
    images: Option<seq<ImageDetails>>,
    countries: Option<seq<Country>>,
    supportInfo: Option<SupportInfo>,
    galleryShufflePercentage: Option<real>,
    currentCoordinates: Option<Point>,
    mapItems: Option<seq<Post>>,
    countryToPosts: Option<OrderedMap<string, seq<string>>>,
    postToCountry: Option<OrderedMap<string, string>>)

  const Unset := Stores(None, None, None, None, None, None, None, None, None, None)

  /** The module state: the guard flag, the stores, and whether the failure alert was raised. */
  datatype State = State(initialized: bool, stores: Stores, alerted: bool)

  /** The answers to the five requests, in the order they are issued. */
  datatype Responses = Responses(
    posts: Option<seq<Post>>,
    imagePosts: Option<seq<Post>>,
    countries: Option<seq<Country>>,
    supportInfo: Option<SupportInfo>,
    shufflePercentage: Option<real>)

  /** A post's code: the stored one if present, else the lookup's for a located post. */
  function ResolveCode(post: Post, lookup: Lookup): (r: Option<string>)
    ensures post.countryCode.Some? ==> r == post.countryCode
    ensures post.countryCode.None? && post.location.None? ==> r.None?
    ensures post.countryCode.None? && post.location.Some? ==> r == lookup(post.location.value)
  {
    if post.countryCode.Some? then post.countryCode
    else if post.location.Some? then lookup(post.location.value)
    else None
  }

  /** The posts after their codes were written back into them. */
  function Resolve(posts: seq<Post>, lookup: Lookup): (r: seq<Post>)
    ensures |r| == |posts|
    ensures forall i :: 0 <= i < |posts| ==> r[i] == posts[i].(countryCode := ResolveCode(posts[i], lookup))
  {
    if |posts| == 0 then []
    else Resolve(posts[..|posts| - 1], lookup) + [posts[|posts| - 1].(countryCode := ResolveCode(posts[|posts| - 1], lookup))]
  }

  /** Resolving twice changes nothing: every resolved code is stored, or none can be found. */
  lemma ResolveIdempotent(posts: seq<Post>, lookup: Lookup)
    ensures Resolve(Resolve(posts, lookup), lookup) == Resolve(posts, lookup)
  {
  }

  /** The current position as written: the location of the first post of the date-ascending list. */
  function CurrentCoordinatesAsWritten(posts: seq<Post>): (r: Option<Point>)
    ensures |posts| == 0 ==> r.None?
    ensures |posts| > 0 ==> r == posts[0].location
  {
    if |posts| > 0 then posts[0].location else None
  }

  /** The current position: the location of the latest post, the last of the date-ascending list. */
  function CurrentCoordinates(posts: seq<Post>): (r: Option<Point>)
    ensures |posts| == 0 ==> r.None?
    ensures |posts| > 0 ==> r == posts[|posts| - 1].location
  {
    if |posts| > 0 then posts[|posts| - 1].location else None
  }

  /** The latest post is the first of the stored, newest-first list. */
  lemma CurrentIsNewestStored(posts: seq<Post>)
    ensures CurrentCoordinates(posts) == (if |posts| == 0 then None else Reverse(posts)[0].location)
  {
  }

  /** Two posts at different places: the code as written reports where the trip began. */
  lemma CurrentCoordinatesAsWrittenIsOldest()
    ensures var posts := [
        Post("1", "2023-01-01", None, Some(Point(13.4, 52.5)), false, None),
        Post("2", "2024-01-01", None, Some(Point(100.5, 13.7)), false, None)];
      CurrentCoordinatesAsWritten(posts) == Some(Point(13.4, 52.5))
      && CurrentCoordinates(posts) == Some(Point(100.5, 13.7))
  {
  }

  /**
   * `fetchPosts` with `setCountryPostRelations`, on the date-ascending
   * posts. The current position is taken as written, from the first
   * (oldest) post.
   */
  function FetchPosts(s: Stores, posts: seq<Post>, lookup: Lookup): (r: Stores)
    ensures r.posts == Some(Reverse(Resolve(posts, lookup)))
    ensures r.mapItems == Some(Located(Resolve(posts, lookup)))
    ensures |posts| > 0 ==> r.currentCoordinates == posts[0].location
    ensures |posts| == 0 ==> r.currentCoordinates.None?
    ensures r.postToImages == s.postToImages && r.images == s.images && r.countries == s.countries
    ensures r.supportInfo == s.supportInfo && r.galleryShufflePercentage == s.galleryShufflePercentage
  {
    var resolved := Resolve(posts, lookup);
    var countryToPosts := CountryRelations.Group(Resolutions(resolved));
    s.(
      posts := Some(Reverse(resolved)),
      currentCoordinates := CurrentCoordinatesAsWritten(posts),
      mapItems := Some(Located(resolved)),
      countryToPosts := Some(countryToPosts),
      postToCountry := Some(CountryRelations.Invert(countryToPosts)))
  }

  /**
   * With unique post ids, `postToCountry` maps a post to a code exactly
   * when the post has that non-empty code, stored or looked up.
   */
  lemma {:induction false} FetchPostsRelations(s: Stores, posts: seq<Post>, lookup: Lookup, p: string, c: string)
    requires UniqueIds(posts)
    ensures Get(FetchPosts(s, posts, lookup).postToCountry.value, p) == Some(c)
      <==> c != "" && exists i :: 0 <= i < |posts| && posts[i].id == p && ResolveCode(posts[i], lookup) == Some(c)
  {
    var resolved := Resolve(posts, lookup);
    assert UniqueIds(resolved);
    RelationOfPosts(resolved, p, c);
  }

  /** The countries list of a code holds the posts with that code, in date order. */
  lemma {:induction false} FetchPostsGroups(s: Stores, posts: seq<Post>, lookup: Lookup, c: string)
    ensures var items := Resolutions(Resolve(posts, lookup));
      Get(FetchPosts(s, posts, lookup).countryToPosts.value, c)
      == (if c != "" && |CountryRelations.IdsWith(items, c)| > 0 then Some(CountryRelations.IdsWith(items, c)) else None)
  {
    CountryRelations.GroupGet(Resolutions(Resolve(posts, lookup)), c);
  }

  /** The image details of one post's files. */
  function Details(files: seq<string>, postId: string, date: string): (r: seq<ImageDetails>)
    ensures |r| == |files|
    ensures forall i :: 0 <= i < |files| ==> r[i] == ImageDetails(files[i], postId, date)
  {
    if |files| == 0 then [] else Details(files[..|files| - 1], postId, date) + [ImageDetails(files[|files| - 1], postId, date)]
  }

  /** Each post's id with its image details, if it has images. */
  function ImageEntries(posts: seq<Post>): (r: seq<PostImages.PostEntry<ImageDetails>>)
    ensures |r| == |posts|
    ensures forall i :: 0 <= i < |posts| ==> r[i].0 == posts[i].id
    ensures forall i :: 0 <= i < |posts| ==> (r[i].1.Some? <==> posts[i].images.Some?)
    ensures forall i :: 0 <= i < |posts| && posts[i].images.Some? ==>
      r[i].1 == Some(Details(posts[i].images.value, posts[i].id, posts[i].date))
  {
    if |posts| == 0 then []
    else
      var p := posts[|posts| - 1];
      ImageEntries(posts[..|posts| - 1]) + [(p.id, if p.images.Some? then Some(Details(p.images.value, p.id, p.date)) else None)]
  }

  /** `getImages`: the images of each post, and all of them in one list. */
  function GetImages(s: Stores, posts: seq<Post>): (r: Stores)
    ensures r.postToImages == Some(PostImages.PostToImages(ImageEntries(posts)))
    ensures r.images == Some(PostImages.Images(ImageEntries(posts)))
    ensures r.(postToImages := s.postToImages, images := s.images) == s
  {
    var entries := ImageEntries(posts);
    s.(postToImages := Some(PostImages.PostToImages(entries)), images := Some(PostImages.Images(entries)))
  }

  /** With unique post ids the image list is every post's images in post order, each tagged with its post. */
  lemma {:induction false} GetImagesInPostOrder(s: Stores, posts: seq<Post>)
    requires UniqueIds(posts)
    ensures GetImages(s, posts).images == Some(PostImages.ImagesOfPosts(ImageEntries(posts)))
  {
    var entries := ImageEntries(posts);
    assert OrderedMaps.UniqueKeys(entries);
    PostImages.ImagesInPostOrder(entries);
  }

  /**
   * The bodies of the five requests under `Promise.all`: each answered
   * request writes its own stores, a failed one leaves them as they were.
   */
  function Fill(s: Stores, r: Responses, lookup: Lookup): (s': Stores)
    ensures r.posts.Some? ==>
      && s'.posts == Some(Reverse(Resolve(r.posts.value, lookup)))
      && s'.mapItems == Some(Located(Resolve(r.posts.value, lookup)))
      && s'.currentCoordinates == CurrentCoordinatesAsWritten(r.posts.value)
    ensures r.posts.None? ==>
      && s'.posts == s.posts && s'.mapItems == s.mapItems
      && s'.currentCoordinates == s.currentCoordinates
      && s'.countryToPosts == s.countryToPosts && s'.postToCountry == s.postToCountry
    ensures r.posts.Some? ==>
      && s'.countryToPosts == FetchPosts(s, r.posts.value, lookup).countryToPosts
      && s'.postToCountry == FetchPosts(s, r.posts.value, lookup).postToCountry
    ensures r.imagePosts.Some? ==>
      && s'.images == Some(PostImages.Images(ImageEntries(r.imagePosts.value)))
      && s'.postToImages == Some(PostImages.PostToImages(ImageEntries(r.imagePosts.value)))
    ensures r.imagePosts.None? ==> s'.images == s.images && s'.postToImages == s.postToImages
    ensures s'.countries == (if r.countries.Some? then Some(Reverse(r.countries.value)) else s.countries)
    ensures s'.supportInfo == (if r.supportInfo.Some? then r.supportInfo else s.supportInfo)
    ensures s'.galleryShufflePercentage == (if r.shufflePercentage.Some? then r.shufflePercentage else s.galleryShufflePercentage)
  {
    var s1 := if r.posts.Some? then FetchPosts(s, r.posts.value, lookup) else s;
    var s2 := if r.imagePosts.Some? then GetImages(s1, r.imagePosts.value) else s1;
    var s3 := if r.countries.Some? then s2.(countries := Some(Reverse(r.countries.value))) else s2;
    var s4 := if r.supportInfo.Some? then s3.(supportInfo := r.supportInfo) else s3;
    if r.shufflePercentage.Some? then s4.(galleryShufflePercentage := r.shufflePercentage) else s4
  }

  predicate AllAnswered(r: Responses)
  {
    r.posts.Some? && r.imagePosts.Some? && r.countries.Some? && r.supportInfo.Some? && r.shufflePercentage.Some?
  }

  /** `initApiStores`: does its work on the first call only. */
  function InitApiStores(st: State, r: Responses, lookup: Lookup): (st': State)
    ensures st'.initialized
    ensures st.initialized ==> st' == st
    ensures !st.initialized ==> st'.alerted == (st.alerted || !AllAnswered(r))
    ensures !st.initialized ==> st'.stores == Fill(st.stores, r, lookup)
  {
    if st.initialized then st
    else State(true, Fill(st.stores, r, lookup), st.alerted || !AllAnswered(r))
  }

  /**
   * After the first initialisation with an answered posts request, a post
   * is related to a country exactly when its resolved code is that country.
   */
  lemma {:induction false} InitRelations(r: Responses, lookup: Lookup, p: string, c: string)
    requires r.posts.Some? && UniqueIds(r.posts.value)
    ensures var st := InitApiStores(State(false, Unset, false), r, lookup);
      Get(st.stores.postToCountry.value, p) == Some(c)
      <==> c != "" && exists i :: 0 <= i < |r.posts.value| && r.posts.value[i].id == p && ResolveCode(r.posts.value[i], lookup) == Some(c)
  {
    FetchPostsRelations(Unset, r.posts.value, lookup, p, c);
  }

  /** A second initialisation, with whatever answers, changes nothing. */
  lemma InitOnce(st: State, r1: Responses, r2: Responses, l1: Lookup, l2: Lookup)
    ensures InitApiStores(InitApiStores(st, r1, l1), r2, l2) == InitApiStores(st, r1, l1)
  {
  }

  /** A failed request leaves its own stores unset and the others filled. */
  lemma FailedPostsLeaveTheirStoresUnset(r: Responses, lookup: Lookup)
    requires r.posts.None? && r.countries.Some?
    ensures var st := InitApiStores(State(false, Unset, false), r, lookup);
      st.alerted && st.stores.posts.None? && st.stores.postToCountry.None?
      && st.stores.countries == Some(Reverse(r.countries.value))
  {
  }
}
