/**
 * The post/country relation both stores build: post ids grouped per country
 * code (`countryToPosts`) and its inverse (`postToCountry`). Each post
 * comes with the code it was resolved to; the grouping walks the posts in
 * order, and a post lands in a list only if its code is truthy (present
 * and not empty).
 */
module CountryRelations {
  import opened Wrappers
  import opened OrderedMaps

  /** A post id with the code its post resolved to. */
  type Resolved = (string, Option<string>)

  predicate Truthy(code: Option<string>)
  {
    code.Some? && code.value != ""
  }

  /** The ids, in post order, of the posts resolved to the code `c`. */
  function IdsWith(items: seq<Resolved>, c: string): seq<string>
  {
    if |items| == 0 then []
    else IdsWith(items[..|items| - 1], c) + (if items[|items| - 1].1 == Some(c) then [items[|items| - 1].0] else [])
  }

  /** `p` is listed under `c` exactly when some post with id `p` resolved to `c`. */
  lemma {:induction false} IdsWithMember(items: seq<Resolved>, c: string, p: string)
    ensures p in IdsWith(items, c) <==> exists i :: 0 <= i < |items| && items[i] == (p, Some(c))
    decreases |items|
  {
    if |items| > 0 {
      var init := items[..|items| - 1];
      IdsWithMember(init, c, p);
      if exists i :: 0 <= i < |items| && items[i] == (p, Some(c)) {
        var i :| 0 <= i < |items| && items[i] == (p, Some(c));
        if i < |init| {
          assert init[i] == items[i];
        }
      }
    }
  }

  /** One step of the grouping loop: push the post id onto its country's list. */
  function AddPost(m: OrderedMap<string, seq<string>>, item: Resolved): OrderedMap<string, seq<string>>
  {
    if Truthy(item.1) then
      var c := item.1.value;
      Put(m, c, Get(m, c).GetOr([]) + [item.0])
    else m
  }

  /** `countryToPosts`: the grouping of the posts, in post order. */
  function Group(items: seq<Resolved>): OrderedMap<string, seq<string>>
  {
    if |items| == 0 then [] else AddPost(Group(items[..|items| - 1]), items[|items| - 1])
  }

  /**
   * The list of a code holds exactly the ids of the posts resolved to it,
   * in post order; codes no post resolved to, and the empty code, have no
   * entry.
   */
  lemma {:induction false} GroupGet(items: seq<Resolved>, c: string)
    ensures Get(Group(items), c) == (if c != "" && |IdsWith(items, c)| > 0 then Some(IdsWith(items, c)) else None)
    decreases |items|
  {
    if |items| > 0 {
      var init := items[..|items| - 1];
      var last := items[|items| - 1];
      var g := Group(init);
      GroupGet(init, c);
      assert Group(items) == AddPost(g, last);
      if Truthy(last.1) && last.1.value == c {
        PutGet(g, c, Get(g, c).GetOr([]) + [last.0]);
      } else {
        assert c != "" ==> IdsWith(items, c) == IdsWith(init, c);
        if Truthy(last.1) {
          var d := last.1.value;
          PutOther(g, d, Get(g, d).GetOr([]) + [last.0], c);
        }
      }
    }
  }

  /** The grouping never lists a code twice. */
  lemma {:induction false} GroupUniqueKeys(items: seq<Resolved>)
    ensures UniqueKeys(Group(items))
    decreases |items|
  {
    if |items| > 0 {
      var init := items[..|items| - 1];
      var last := items[|items| - 1];
      GroupUniqueKeys(init);
      if Truthy(last.1) {
        PutUniqueKeys(Group(init), last.1.value, Get(Group(init), last.1.value).GetOr([]) + [last.0]);
      }
    }
  }

  /** Every entry of the grouping is a non-empty code with exactly its posts' ids. */
  lemma {:induction false} GroupEntries(items: seq<Resolved>, i: nat)
    requires i < |Group(items)|
    ensures Group(items)[i].0 != ""
    ensures Group(items)[i].1 == IdsWith(items, Group(items)[i].0)
  {
    GroupUniqueKeys(items);
    GetEntry(Group(items), i);
    GroupGet(items, Group(items)[i].0);
  }

  /** Setting every id of `ids` to `c`, in order. */
  function PutAll(m: OrderedMap<string, string>, ids: seq<string>, c: string): OrderedMap<string, string>
  {
    if |ids| == 0 then m else Put(PutAll(m, ids[..|ids| - 1], c), ids[|ids| - 1], c)
  }

  lemma {:induction false} PutAllGet(m: OrderedMap<string, string>, ids: seq<string>, c: string, p: string)
    ensures Get(PutAll(m, ids, c), p) == (if p in ids then Some(c) else Get(m, p))
    decreases |ids|
  {
    if |ids| > 0 {
      var init := ids[..|ids| - 1];
      var last := ids[|ids| - 1];
      PutAllGet(m, init, c, p);
      assert ids == init + [last];
      if p == last {
        PutGet(PutAll(m, init, c), last, c);
      } else {
        PutOther(PutAll(m, init, c), last, c, p);
      }
    }
  }

  /** `postToCountry`: every id of every list mapped to the list's code, later entries winning. */
  function Invert(m: OrderedMap<string, seq<string>>): OrderedMap<string, string>
  {
    if |m| == 0 then [] else PutAll(Invert(m[..|m| - 1]), m[|m| - 1].1, m[|m| - 1].0)
  }

  /** The code of the last entry whose list holds `p`. */
  function LastOwner(m: OrderedMap<string, seq<string>>, p: string): (r: Option<string>)
    ensures r.None? <==> forall i :: 0 <= i < |m| ==> p !in m[i].1
    ensures r.Some? ==> exists i :: 0 <= i < |m| && m[i].0 == r.value && p in m[i].1
  {
    if |m| == 0 then None
    else if p in m[|m| - 1].1 then Some(m[|m| - 1].0)
    else
      var r := LastOwner(m[..|m| - 1], p);
      assert r.Some? ==> exists i :: 0 <= i < |m| && m[i].0 == r.value && p in m[i].1 by {
        if r.Some? {
          var i :| 0 <= i < |m| - 1 && m[..|m| - 1][i].0 == r.value && p in m[..|m| - 1][i].1;
          assert m[i] == m[..|m| - 1][i];
        }
      }
      assert r.None? ==> forall i :: 0 <= i < |m| ==> p !in m[i].1 by {
        if r.None? {
          forall i | 0 <= i < |m| ensures p !in m[i].1 {
            if i < |m| - 1 {
              assert m[i] == m[..|m| - 1][i];
            }
          }
        }
      }
      r
  }

  /** The inverse maps each id to the code of the last list that holds it. */
  lemma {:induction false} InvertGet(m: OrderedMap<string, seq<string>>, p: string)
    ensures Get(Invert(m), p) == LastOwner(m, p)
    decreases |m|
  {
    if |m| > 0 {
      InvertGet(m[..|m| - 1], p);
      PutAllGet(Invert(m[..|m| - 1]), m[|m| - 1].1, m[|m| - 1].0, p);
    }
  }

  /** No id is in the lists of two different codes. */
  predicate Disjoint(m: OrderedMap<string, seq<string>>)
  {
    forall i, j, p :: 0 <= i < |m| && 0 <= j < |m| && p in m[i].1 && p in m[j].1 ==> m[i].0 == m[j].0
  }

  /** For disjoint lists the inverse is exact: `p` maps to `c` iff `c`'s list holds `p`. */
  lemma {:induction false} InverseOfDisjoint(m: OrderedMap<string, seq<string>>, p: string, c: string)
    requires Disjoint(m)
    ensures Get(Invert(m), p) == Some(c) <==> exists i :: 0 <= i < |m| && m[i].0 == c && p in m[i].1
  {
    InvertGet(m, p);
  }

  /** With unique post ids, each id is listed under one code at most. */
  lemma {:induction false} GroupDisjoint(items: seq<Resolved>)
    requires UniqueKeys(items)
    ensures Disjoint(Group(items))
  {
    var m := Group(items);
    forall i, j, p | 0 <= i < |m| && 0 <= j < |m| && p in m[i].1 && p in m[j].1
      ensures m[i].0 == m[j].0
    {
      GroupEntries(items, i);
      GroupEntries(items, j);
      IdsWithMember(items, m[i].0, p);
      IdsWithMember(items, m[j].0, p);
    }
  }

  /**
   * With unique post ids, `postToCountry` maps `p` to `c` exactly when the
   * post `p` resolved to the non-empty code `c`, and has no entry for posts
   * without a truthy code.
   */
  lemma {:induction false} PostToCountryIsInverse(items: seq<Resolved>, p: string, c: string)
    requires UniqueKeys(items)
    ensures Get(Invert(Group(items)), p) == Some(c) <==> c != "" && exists i :: 0 <= i < |items| && items[i] == (p, Some(c))
  {
    var m := Group(items);
    GroupDisjoint(items);
    InverseOfDisjoint(m, p, c);
    IdsWithMember(items, c, p);
    if exists i :: 0 <= i < |m| && m[i].0 == c && p in m[i].1 {
      var i :| 0 <= i < |m| && m[i].0 == c && p in m[i].1;
      GroupEntries(items, i);
    }
    if c != "" && exists i :: 0 <= i < |items| && items[i] == (p, Some(c)) {
      GroupGet(items, c);
    }
  }
}

/**
 * `postToImages` and the flat image list: each post that has images maps
 * its id to them, in post order, and the image list is the concatenation
 * of the map's values.
 */
module PostImages {
  import opened Wrappers
  import opened OrderedMaps
  import opened Seqs

  /** A post id with its images, if the post has any. */
  type PostEntry<T> = (string, Option<seq<T>>)

  function PostToImages<T>(posts: seq<PostEntry<T>>): OrderedMap<string, seq<T>>
  {
    if |posts| == 0 then []
    else
      var m := PostToImages(posts[..|posts| - 1]);
      var last := posts[|posts| - 1];
      if last.1.Some? then Put(m, last.0, last.1.value) else m
  }

  /** The posts that have images, with those images, in post order. */
  function WithImages<T>(posts: seq<PostEntry<T>>): (r: OrderedMap<string, seq<T>>)
    ensures |r| <= |posts|
  {
    if |posts| == 0 then []
    else
      var last := posts[|posts| - 1];
      WithImages(posts[..|posts| - 1]) + (if last.1.Some? then [(last.0, last.1.value)] else [])
  }

  /** Every key of `WithImages` is the id of one of the posts. */
  lemma {:induction false} WithImagesKeys<T>(posts: seq<PostEntry<T>>, i: nat)
    requires i < |WithImages(posts)|
    ensures exists j :: 0 <= j < |posts| && posts[j].0 == WithImages(posts)[i].0
    decreases |posts|
  {
    var init := posts[..|posts| - 1];
    if i < |WithImages(init)| {
      WithImagesKeys(init, i);
      var j :| 0 <= j < |init| && init[j].0 == WithImages(init)[i].0;
      assert posts[j] == init[j];
    } else {
      assert posts[|posts| - 1].0 == WithImages(posts)[i].0;
    }
  }

  /**
   * With unique post ids the map is exactly the posts that have images, in
   * post order; a post without images has no entry.
   */
  lemma {:induction false} PostToImagesIsFilter<T>(posts: seq<PostEntry<T>>)
    requires UniqueKeys(posts)
    ensures PostToImages(posts) == WithImages(posts)
    decreases |posts|
  {
    if |posts| > 0 {
      var init := posts[..|posts| - 1];
      var last := posts[|posts| - 1];
      assert UniqueKeys(init);
      PostToImagesIsFilter(init);
      var m := PostToImages(init);
      if last.1.Some? {
        forall i | 0 <= i < |m| ensures m[i].0 != last.0 {
          WithImagesKeys(init, i);
        }
        assert Get(m, last.0).None?;
      }
    }
  }

  /** `images`: every image of every post that has images, post by post. */
  function Images<T>(posts: seq<PostEntry<T>>): seq<T>
  {
    Flatten(Values(PostToImages(posts)))
  }

  /** The images of the posts that have images, in post order. */
  function ImagesOfPosts<T>(posts: seq<PostEntry<T>>): seq<T>
  {
    if |posts| == 0 then []
    else
      var last := posts[|posts| - 1];
      ImagesOfPosts(posts[..|posts| - 1]) + (if last.1.Some? then last.1.value else [])
  }

  lemma {:induction false} FlattenWithImages<T>(posts: seq<PostEntry<T>>)
    ensures Flatten(Values(WithImages(posts))) == ImagesOfPosts(posts)
    decreases |posts|
  {
    if |posts| > 0 {
      var init := posts[..|posts| - 1];
      var last := posts[|posts| - 1];
      FlattenWithImages(init);
      var tail := if last.1.Some? then [(last.0, last.1.value)] else [];
      assert Values(WithImages(posts)) == Values(WithImages(init)) + Values(tail);
      FlattenAppend(Values(WithImages(init)), Values(tail));
      if last.1.Some? {
        assert Values(tail) == [last.1.value];
        assert Flatten(Values(tail)) == Flatten(Values(tail)[..0]) + last.1.value;
      }
    }
  }

  /** With unique post ids, the image list is every post's images, post by post. */
  lemma {:induction false} ImagesInPostOrder<T>(posts: seq<PostEntry<T>>)
    requires UniqueKeys(posts)
    ensures Images(posts) == ImagesOfPosts(posts)
  {
    PostToImagesIsFilter(posts);
    FlattenWithImages(posts);
  }
}
