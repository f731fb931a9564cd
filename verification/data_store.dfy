/**
 * The older data store: one state record filled by nine guarded requests,
 * each of which writes its own fields and, on failure, a fallback. The
 * requests' answers are inputs (`None` for a failed request); the clock
 * reading for the departure fallback and the country lookup are
 * parameters.
 */
module DataStore {
  import opened Wrappers
  import opened Geo
  import opened OrderedMaps
  import opened Seqs
  import opened Posts
  import CountryRelations
  import PostImages

  datatype Country = Country(id: string, code: string)

  datatype SupportInfo = SupportInfo(id: string, translations: seq<string>)

  /**
   * The store's value. Every field starts out undefined (`None`). `files`
   * is not a field of the declared model: only the failure path of the
   * image request writes it.
   */
  datatype DataModel = DataModel(
    posts: Option<seq<Post>>,
    countries: Option<seq<Country>>,
    departure: Option<string>,
    supportInfo: Option<SupportInfo>,
    galleryShufflePercentage: Option<real>,
    postToImages: Option<OrderedMap<string, seq<string>>>,
    images: Option<seq<string>>,
    currentCoordinates: Option<Point>,
    mapItems: Option<seq<Post>>,
    countryToPosts: Option<OrderedMap<string, seq<string>>>,
    postToCountry: Option<OrderedMap<string, string>>,
    files: Option<seq<string>>)

  const Undefined := DataModel(None, None, None, None, None, None, None, None, None, None, None, None)

  datatype State = State(initialized: bool, model: DataModel)

  /** `getPosts`: no fallback, a failure leaves the posts as they were. */
  function GetPosts(m: DataModel, answer: Option<seq<Post>>): (r: DataModel)
    ensures answer.Some? ==> r == m.(posts := answer)
    ensures answer.None? ==> r == m
  {
    if answer.Some? then m.(posts := answer) else m
  }

  /** Each post's id with its image file ids, if it has images. */
  function ImageEntries(posts: seq<Post>): (r: seq<PostImages.PostEntry<string>>)
    ensures |r| == |posts|
    ensures forall i :: 0 <= i < |posts| ==> r[i] == (posts[i].id, posts[i].images)
  {
    if |posts| == 0 then [] else ImageEntries(posts[..|posts| - 1]) + [(posts[|posts| - 1].id, posts[|posts| - 1].images)]
  }

  /** The image fields agree: the flat list is the concatenation of the map's lists. */
  predicate ImagesConsistent(m: DataModel)
  {
    m.postToImages.Some? ==> m.images == Some(Flatten(Values(m.postToImages.value)))
  }

  /** `getImages` as written: on failure it empties the map and sets `files`, leaving `images` alone. */
  function GetImagesAsWritten(m: DataModel, answer: Option<seq<Post>>): (r: DataModel)
    ensures answer.None? ==> r.images == m.images && r.files == Some([]) && r.postToImages == Some([])
    ensures answer.Some? ==> r == GetImages(m, answer)
    ensures r.(postToImages := m.postToImages, images := m.images, files := m.files) == m
  {
    if answer.Some? then
      var entries := ImageEntries(answer.value);
      m.(postToImages := Some(PostImages.PostToImages(entries)), images := Some(PostImages.Images(entries)))
    else
      m.(files := Some([]), postToImages := Some([]))
  }

  /** The first failure of the image request leaves the store with an empty map but no image list. */
  lemma ImagesAsWrittenInconsistent()
    ensures !ImagesConsistent(GetImagesAsWritten(Undefined, None))
    ensures GetImagesAsWritten(Undefined, None).images.None?
  {
  }

  /** `getImages`, its failure path resetting the image list the model declares. */
  function GetImages(m: DataModel, answer: Option<seq<Post>>): (r: DataModel)
    ensures ImagesConsistent(r)
    ensures answer.None? ==> r.images == Some([]) && r.postToImages == Some([])
    ensures r.(postToImages := m.postToImages, images := m.images) == m
  {
    if answer.Some? then
      var entries := ImageEntries(answer.value);
      m.(postToImages := Some(PostImages.PostToImages(entries)), images := Some(PostImages.Images(entries)))
    else
      assert Flatten(Values<string, seq<string>>([])) == [];
      m.(images := Some([]), postToImages := Some([]))
  }

  /** With unique post ids the image list is every post's file ids, post by post. */
  lemma {:induction false} GetImagesInPostOrder(m: DataModel, posts: seq<Post>)
    requires UniqueIds(posts)
    ensures GetImages(m, Some(posts)).images == Some(PostImages.ImagesOfPosts(ImageEntries(posts)))
  {
    var entries := ImageEntries(posts);
    assert OrderedMaps.UniqueKeys(entries);
    PostImages.ImagesInPostOrder(entries);
  }

  /** `getCountries`: the answer, or no countries. */
  function GetCountries(m: DataModel, answer: Option<seq<Country>>): (r: DataModel)
    ensures r.countries == Some(answer.GetOr([]))
    ensures r.(countries := m.countries) == m
  {
    m.(countries := Some(if answer.Some? then answer.value else []))
  }

  /** `getDeparture`: the stored date, or the current time `now`. */
  function GetDeparture(m: DataModel, answer: Option<string>, now: string): (r: DataModel)
    ensures r.departure == Some(answer.GetOr(now))
    ensures r.(departure := m.departure) == m
  {
    m.(departure := Some(if answer.Some? then answer.value else now))
  }

  /** `getSupportInfo`: the answer, or an entry with an empty id and no translations. */
  function GetSupportInfo(m: DataModel, answer: Option<SupportInfo>): (r: DataModel)
    ensures r.supportInfo == Some(answer.GetOr(SupportInfo("", [])))
    ensures r.(supportInfo := m.supportInfo) == m
  {
    m.(supportInfo := Some(if answer.Some? then answer.value else SupportInfo("", [])))
  }

  /** `getGalleryShufflePercentage`: the stored value, or 0. */
  function GetGalleryShufflePercentage(m: DataModel, answer: Option<real>): (r: DataModel)
    ensures r.galleryShufflePercentage == Some(answer.GetOr(0.0))
    ensures r.(galleryShufflePercentage := m.galleryShufflePercentage) == m
  {
    m.(galleryShufflePercentage := Some(if answer.Some? then answer.value else 0.0))
  }

  /**
   * `currentCoordinates`: the location of the first post of the answer
   * (the latest post, as requested), undefined if there is none or the
   * request failed.
   */
  function CurrentCoordinates(m: DataModel, answer: Option<seq<Post>>): (r: DataModel)
    ensures r.currentCoordinates.Some? <==> answer.Some? && |answer.value| > 0 && answer.value[0].location.Some?
    ensures r.currentCoordinates.Some? ==> r.currentCoordinates == answer.value[0].location
    ensures r.(currentCoordinates := m.currentCoordinates) == m
  {
    m.(currentCoordinates := if answer.Some? && |answer.value| > 0 then answer.value[0].location else None)
  }

  /** `mapItems`: the located posts in the order fetched, or none. */
  function MapItems(m: DataModel, answer: Option<seq<Post>>): (r: DataModel)
    ensures r.mapItems.Some?
    ensures forall p :: p in r.mapItems.value <==> answer.Some? && p in answer.value && p.location.Some?
    ensures answer.Some? ==> r.mapItems == Some(Located(answer.value))
    ensures answer.None? ==> r.mapItems == Some([])
    ensures r.(mapItems := m.mapItems) == m
  {
    if answer.Some? then
      assert forall p :: p in Located(answer.value) <==> p in answer.value && p.location.Some? by {
        forall p { LocatedMember(answer.value, p); }
      }
      m.(mapItems := Some(Located(answer.value)))
    else
      m.(mapItems := Some([]))
  }

  /** A post's code: only located posts get one, the stored code if present, else the lookup's. */
  function ResolveCode(post: Post, lookup: Lookup): (r: Option<string>)
    ensures post.location.None? ==> r.None?
    ensures post.location.Some? && post.countryCode.Some? ==> r == post.countryCode
    ensures post.location.Some? && post.countryCode.None? ==> r == lookup(post.location.value)
  {
    if post.location.None? then None
    else if post.countryCode.Some? then post.countryCode
    else lookup(post.location.value)
  }

  /** Each post with the code it resolved to. */
  function Resolutions(posts: seq<Post>, lookup: Lookup): (r: seq<CountryRelations.Resolved>)
    ensures |r| == |posts|
    ensures forall i :: 0 <= i < |posts| ==> r[i] == (posts[i].id, ResolveCode(posts[i], lookup))
  {
    if |posts| == 0 then [] else Resolutions(posts[..|posts| - 1], lookup) + [(posts[|posts| - 1].id, ResolveCode(posts[|posts| - 1], lookup))]
  }

  /** `countryPostRelations` on the posts the request returned; on failure only `countryToPosts` is reset. */
  function CountryPostRelations(m: DataModel, answer: Option<seq<Post>>, lookup: Lookup): (r: DataModel)
    ensures answer.None? ==> r == m.(countryToPosts := Some([]))
    ensures r.(countryToPosts := m.countryToPosts, postToCountry := m.postToCountry) == m
  {
    if answer.Some? then
      var countryToPosts := CountryRelations.Group(Resolutions(answer.value, lookup));
      m.(countryToPosts := Some(countryToPosts), postToCountry := Some(CountryRelations.Invert(countryToPosts)))
    else
      m.(countryToPosts := Some([]))
  }

  /**
   * With unique ids, `postToCountry` maps a post to a code exactly when the
   * post is located and has that non-empty code, stored or looked up; an
   * unlocated post has no entry even with a stored code.
   */
  lemma {:induction false} CountryPostRelationsInverse(m: DataModel, posts: seq<Post>, lookup: Lookup, p: string, c: string)
    requires UniqueIds(posts)
    ensures Get(CountryPostRelations(m, Some(posts), lookup).postToCountry.value, p) == Some(c)
      <==> c != "" && exists i :: 0 <= i < |posts| && posts[i].id == p && posts[i].location.Some? && ResolveCode(posts[i], lookup) == Some(c)
  {
    var items := Resolutions(posts, lookup);
    assert OrderedMaps.UniqueKeys(items);
    CountryRelations.PostToCountryIsInverse(items, p, c);
  }

  /** The fields a request names: the server leaves the others out of each post. */
  function Select(p: Post, location: bool): Post
  {
    p.(date := "", location := if location then p.location else None, isFlight := false, images := None)
  }

  function SelectAll(posts: seq<Post>, location: bool): (r: seq<Post>)
    ensures |r| == |posts|
    ensures forall i :: 0 <= i < |posts| ==> r[i] == Select(posts[i], location)
  {
    if |posts| == 0 then [] else SelectAll(posts[..|posts| - 1], location) + [Select(posts[|posts| - 1], location)]
  }

  /** The relation request as written names only `id` and `countryCode`. */
  function RelationAnswerAsWritten(stored: Option<seq<Post>>): Option<seq<Post>>
  {
    if stored.Some? then Some(SelectAll(stored.value, false)) else None
  }

  /** The relation request with `location` among its fields. */
  function RelationAnswer(stored: Option<seq<Post>>): Option<seq<Post>>
  {
    if stored.Some? then Some(SelectAll(stored.value, true)) else None
  }

  /** No post of an answer without locations is grouped. */
  lemma {:induction false} NothingGroupedWithoutLocations(posts: seq<Post>, lookup: Lookup)
    requires forall i :: 0 <= i < |posts| ==> posts[i].location.None?
    ensures CountryRelations.Group(Resolutions(posts, lookup)) == []
    decreases |posts|
  {
    if |posts| > 0 {
      var init := posts[..|posts| - 1];
      NothingGroupedWithoutLocations(init, lookup);
      assert Resolutions(posts, lookup)[..|posts| - 1] == Resolutions(init, lookup);
    }
  }

  /** As written, the relations come out empty whatever the stored posts are. */
  lemma {:induction false} RelationsAsWrittenEmpty(m: DataModel, stored: seq<Post>, lookup: Lookup)
    ensures CountryPostRelations(m, RelationAnswerAsWritten(Some(stored)), lookup).countryToPosts == Some([])
    ensures CountryPostRelations(m, RelationAnswerAsWritten(Some(stored)), lookup).postToCountry == Some([])
  {
    NothingGroupedWithoutLocations(SelectAll(stored, false), lookup);
  }

  /** Asking for the location keeps every located, coded post in the relation. */
  lemma {:induction false} RelationsWithLocation(m: DataModel, stored: seq<Post>, lookup: Lookup, p: string, c: string)
    requires UniqueIds(stored)
    ensures Get(CountryPostRelations(m, RelationAnswer(Some(stored)), lookup).postToCountry.value, p) == Some(c)
      <==> c != "" && exists i :: 0 <= i < |stored| && stored[i].id == p && stored[i].location.Some? && ResolveCode(stored[i], lookup) == Some(c)
  {
    var answer := SelectAll(stored, true);
    assert UniqueIds(answer);
    CountryPostRelationsInverse(m, answer, lookup, p, c);
    assert forall i :: 0 <= i < |stored| ==> ResolveCode(answer[i], lookup) == ResolveCode(stored[i], lookup);
  }

  /** The answers to the nine requests. */
  datatype Responses = Responses(
    current: Option<seq<Post>>,
    posts: Option<seq<Post>>,
    imagePosts: Option<seq<Post>>,
    countries: Option<seq<Country>>,
    departure: Option<string>,
    supportInfo: Option<SupportInfo>,
    shufflePercentage: Option<real>,
    mapPosts: Option<seq<Post>>,
    storedPosts: Option<seq<Post>>)

  /**
   * The bodies of the nine requests under `Promise.all`, as written: each
   * writes its own fields or its fallback. An image failure sets `files`
   * and leaves `images` as it was, and the relation request names only `id`
   * and `countryCode`, so its relations come out empty.
   */
  function Fill(m: DataModel, r: Responses, lookup: Lookup, now: string): (m': DataModel)
    ensures m'.posts == (if r.posts.Some? then r.posts else m.posts)
    ensures m'.countries == Some(r.countries.GetOr([]))
    ensures m'.departure == Some(r.departure.GetOr(now))
    ensures m'.supportInfo == Some(r.supportInfo.GetOr(SupportInfo("", [])))
    ensures m'.galleryShufflePercentage == Some(r.shufflePercentage.GetOr(0.0))
    ensures m'.currentCoordinates == (if r.current.Some? && |r.current.value| > 0 then r.current.value[0].location else None)
    ensures r.mapPosts.Some? ==> m'.mapItems == Some(Located(r.mapPosts.value))
    ensures r.mapPosts.None? ==> m'.mapItems == Some([])
    ensures r.imagePosts.None? ==> m'.images == m.images && m'.postToImages == Some([]) && m'.files == Some([])
    ensures r.imagePosts.Some? ==> ImagesConsistent(m') && m'.files == m.files
    ensures r.imagePosts.Some? ==>
      && m'.images == Some(PostImages.Images(ImageEntries(r.imagePosts.value)))
      && m'.postToImages == Some(PostImages.PostToImages(ImageEntries(r.imagePosts.value)))
    ensures m'.countryToPosts == Some([])
    ensures m'.postToCountry == (if r.storedPosts.Some? then Some([]) else m.postToCountry)
  {
    var m1 := CurrentCoordinates(m, r.current);
    var m2 := GetPosts(m1, r.posts);
    var m3 := GetImagesAsWritten(m2, r.imagePosts);
    var m4 := GetCountries(m3, r.countries);
    var m5 := GetDeparture(m4, r.departure, now);
    var m6 := GetSupportInfo(m5, r.supportInfo);
    var m7 := GetGalleryShufflePercentage(m6, r.shufflePercentage);
    var m8 := MapItems(m7, r.mapPosts);
    if r.storedPosts.Some? then
      RelationsAsWrittenEmpty(m8, r.storedPosts.value, lookup);
      CountryPostRelations(m8, RelationAnswerAsWritten(r.storedPosts), lookup)
    else
      CountryPostRelations(m8, None, lookup)
  }

  /** `init`: does its work on the first call only. */
  function Init(st: State, r: Responses, lookup: Lookup, now: string): (st': State)
    ensures st'.initialized
    ensures st.initialized ==> st' == st
    ensures !st.initialized ==> st'.model == Fill(st.model, r, lookup, now)
  {
    if st.initialized then st else State(true, Fill(st.model, r, lookup, now))
  }

  /** A second `init`, with whatever answers, changes nothing. */
  lemma InitOnce(st: State, r1: Responses, r2: Responses, l1: Lookup, l2: Lookup, n1: string, n2: string)
    ensures Init(Init(st, r1, l1, n1), r2, l2, n2) == Init(st, r1, l1, n1)
  {
  }

  /**
   * After `init` from the undefined state every field with a fallback is
   * defined whatever fails. An image failure leaves the image list
   * undefined next to an empty map and sets `files`; the relation maps are
   * always empty.
   */
  lemma InitDefinesFallbackFields(r: Responses, lookup: Lookup, now: string)
    ensures var m := Init(State(false, Undefined), r, lookup, now).model;
      && m.countries.Some? && m.departure.Some? && m.supportInfo.Some?
      && m.galleryShufflePercentage.Some? && m.mapItems.Some? && m.postToImages.Some?
      && m.countryToPosts == Some([])
      && m.postToCountry == (if r.storedPosts.Some? then Some([]) else None)
      && (r.imagePosts.Some? <==> ImagesConsistent(m))
      && (r.imagePosts.Some? <==> m.images.Some?)
      && (r.imagePosts.Some? <==> m.files.None?)
  {
  }

  /**
   * The nine requests with the two corrections: an image failure resets the
   * declared `images` field, and the relation request names `location`.
   */
  function FillCorrected(m: DataModel, r: Responses, lookup: Lookup, now: string): (m': DataModel)
    ensures ImagesConsistent(m') && m'.images.Some? && m'.files == m.files
    ensures r.imagePosts.None? ==> m'.images == Some([]) && m'.postToImages == Some([])
    ensures r.storedPosts.Some? ==> m'.postToCountry == CountryPostRelations(m, RelationAnswer(r.storedPosts), lookup).postToCountry
    ensures var w := Fill(m, r, lookup, now);
      && m'.posts == w.posts && m'.countries == w.countries && m'.departure == w.departure
      && m'.supportInfo == w.supportInfo && m'.galleryShufflePercentage == w.galleryShufflePercentage
      && m'.currentCoordinates == w.currentCoordinates && m'.mapItems == w.mapItems
  {
    var m1 := CurrentCoordinates(m, r.current);
    var m2 := GetPosts(m1, r.posts);
    var m3 := GetImages(m2, r.imagePosts);
    var m4 := GetCountries(m3, r.countries);
    var m5 := GetDeparture(m4, r.departure, now);
    var m6 := GetSupportInfo(m5, r.supportInfo);
    var m7 := GetGalleryShufflePercentage(m6, r.shufflePercentage);
    var m8 := MapItems(m7, r.mapPosts);
    CountryPostRelations(m8, RelationAnswer(r.storedPosts), lookup)
  }

  /** `init` on the corrected requests. */
  function InitCorrected(st: State, r: Responses, lookup: Lookup, now: string): (st': State)
    ensures st'.initialized
    ensures st.initialized ==> st' == st
    ensures !st.initialized ==> st'.model == FillCorrected(st.model, r, lookup, now)
  {
    if st.initialized then st else State(true, FillCorrected(st.model, r, lookup, now))
  }

  /**
   * After the corrected `init` from the undefined state every field with a
   * fallback is defined whatever fails, the image fields agree and `files`
   * stays unset.
   */
  lemma InitCorrectedDefinesFallbackFields(r: Responses, lookup: Lookup, now: string)
    ensures var m := InitCorrected(State(false, Undefined), r, lookup, now).model;
      && m.countries.Some? && m.departure.Some? && m.supportInfo.Some?
      && m.galleryShufflePercentage.Some? && m.mapItems.Some? && m.countryToPosts.Some?
      && m.postToImages.Some? && m.images.Some? && ImagesConsistent(m)
      && m.files.None?
  {
  }

  /**
   * With unique ids among the stored posts, the corrected `init` maps a post
   * to a code exactly when it is located and has that non-empty code,
   * stored or looked up.
   */
  lemma {:induction false} InitCorrectedRelations(r: Responses, lookup: Lookup, now: string, p: string, c: string)
    requires r.storedPosts.Some? && UniqueIds(r.storedPosts.value)
    ensures var stored := r.storedPosts.value;
      Get(InitCorrected(State(false, Undefined), r, lookup, now).model.postToCountry.value, p) == Some(c)
      <==> c != "" && exists i :: 0 <= i < |stored| && stored[i].id == p && stored[i].location.Some? && ResolveCode(stored[i], lookup) == Some(c)
  {
    RelationsWithLocation(Undefined, r.storedPosts.value, lookup, p, c);
  }
}
