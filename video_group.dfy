/**
 * model/VideoGroup.java: a titled shelf of videos. The group's list is
 * changed in place (`addVideo`, `addVideos`, `clear`) and replaced by a
 * copy (`setVideos`), so the group is a class. The list field is nullable
 * in Java; the model keeps that and proves that it is never null.
 */
module VideoGroups {
  import opened Base
  import opened Text
  import opened Videos

  /** `videos != null ? new ArrayList<>(videos) : new ArrayList<>()`: a copy, empty for null. */
  function CopyOrEmpty(videos: Option<seq<Option<Video>>>): (r: seq<Option<Video>>)
    ensures videos.None? ==> r == []
    ensures videos.Some? ==> r == videos.value
  {
    if videos.Some? then videos.value else []
  }

  class VideoGroup {
    var title: Option<string>
    var subtitle: Option<string>
    var videos: Option<seq<Option<Video>>>
    var id: Option<string>
    var nextPageKey: Option<string>
    var isAuthRequired: bool

    /** The list is never null. */
    predicate Valid()
      reads this
    {
      videos.Some?
    }

    /** `new VideoGroup()`: an empty list, every other reference null. */
    constructor ()
      ensures Valid() && videos == Some([])
      ensures title == None && subtitle == None && id == None && nextPageKey == None && !isAuthRequired
    {
      title := None;
      subtitle := None;
      videos := Some([]);
      id := None;
      nextPageKey := None;
      isAuthRequired := false;
    }

    /** `new VideoGroup(title)`. */
    constructor Titled(title: Option<string>)
      ensures Valid() && videos == Some([]) && this.title == title
      ensures subtitle == None && id == None && nextPageKey == None && !isAuthRequired
    {
      this.title := title;
      subtitle := None;
      videos := Some([]);
      id := None;
      nextPageKey := None;
      isAuthRequired := false;
    }

    /** `new VideoGroup(title, videos)`: a copy of the list, empty for null. */
    constructor WithVideos(title: Option<string>, videos: Option<seq<Option<Video>>>)
      ensures Valid() && this.videos == Some(CopyOrEmpty(videos)) && this.title == title
      ensures subtitle == None && id == None && nextPageKey == None && !isAuthRequired
    {
      this.title := title;
      subtitle := None;
      this.videos := Some(CopyOrEmpty(videos));
      id := None;
      nextPageKey := None;
      isAuthRequired := false;
    }

    /** `setTitle(title)`. */
    method SetTitle(title: Option<string>)
      modifies this
      ensures this.title == title && videos == old(videos) && id == old(id)
      ensures subtitle == old(subtitle) && nextPageKey == old(nextPageKey) && isAuthRequired == old(isAuthRequired)
    {
      this.title := title;
    }

    /** `setId(id)`. */
    method SetId(id: Option<string>)
      modifies this
      ensures this.id == id && videos == old(videos) && title == old(title)
      ensures subtitle == old(subtitle) && nextPageKey == old(nextPageKey) && isAuthRequired == old(isAuthRequired)
    {
      this.id := id;
    }

    /** `setVideos(videos)`: the group takes a copy, empty for null. */
    method SetVideos(videos: Option<seq<Option<Video>>>)
      modifies this
      ensures Valid() && this.videos == Some(CopyOrEmpty(videos))
      ensures title == old(title) && id == old(id)
      ensures subtitle == old(subtitle) && nextPageKey == old(nextPageKey) && isAuthRequired == old(isAuthRequired)
    {
      this.videos := Some(CopyOrEmpty(videos));
    }

    /** `addVideo(video)`: a non-null video goes to the end; null is ignored. */
    method AddVideo(video: Option<Video>)
      requires Valid()
      modifies this
      ensures Valid() && title == old(title) && id == old(id)
      ensures video.Some? ==> videos.value == old(videos.value) + [video]
      ensures video.None? ==> videos == old(videos)
      ensures subtitle == old(subtitle) && nextPageKey == old(nextPageKey) && isAuthRequired == old(isAuthRequired)
    {
      if video.Some? {
        videos := Some(videos.value + [video]);
      }
    }

    /** `addVideos(videos)`: all elements at the end, in order (null elements included); a null list is ignored. */
    method AddVideos(more: Option<seq<Option<Video>>>)
      requires Valid()
      modifies this
      ensures Valid() && title == old(title) && id == old(id)
      ensures videos.value == old(videos.value) + CopyOrEmpty(more)
      ensures subtitle == old(subtitle) && nextPageKey == old(nextPageKey) && isAuthRequired == old(isAuthRequired)
    {
      if more.Some? {
        videos := Some(videos.value + more.value);
      }
    }

    /** `clear()`. */
    method Clear()
      modifies this
      ensures videos.None? <==> old(videos).None?
      ensures videos.Some? ==> videos.value == []
      ensures IsEmpty() && Size() == 0
      ensures title == old(title) && id == old(id)
      ensures subtitle == old(subtitle) && nextPageKey == old(nextPageKey) && isAuthRequired == old(isAuthRequired)
    {
      if videos.Some? {
        videos := Some([]);
      }
    }

    /** `size()`: the number of videos, 0 for a null list. */
    function Size(): (n: nat)
      reads this
      ensures videos.Some? ==> n == |videos.value|
      ensures videos.None? ==> n == 0
    {
      if videos.Some? then |videos.value| else 0
    }

    /** `isEmpty()`: a null or empty list. */
    predicate IsEmpty()
      reads this
      ensures IsEmpty() <==> Size() == 0
    {
      videos.None? || videos.value == []
    }

    /** `equals(o)`: the same object, or the groups compare equal on their id and title. */
    predicate Equals(that: VideoGroup)
      reads this, that
      ensures this == that ==> Equals(that)
      ensures Equals(that) && id.Some? == that.id.Some? ==> HashCode() == that.HashCode()
    {
      this == that || GroupsEqual(id, title, that.id, that.title)
    }

    /** `hashCode()`. */
    function HashCode(): (h: int)
      reads this
      ensures INT_MIN <= h <= INT_MAX
      ensures id.Some? ==> h == StringHash(id.value)
      ensures id.None? && title.Some? ==> h == StringHash(title.value)
      ensures id.None? && title.None? ==> h == 0
    {
      GroupHash(id, title)
    }
  }

  /** The comparison of `equals`: ids when both are set, titles otherwise (null equals null). */
  predicate GroupsEqual(id1: Option<string>, title1: Option<string>, id2: Option<string>, title2: Option<string>)
    ensures GroupsEqual(id1, title1, id2, title2) && id1.Some? == id2.Some? ==> GroupHash(id1, title1) == GroupHash(id2, title2)
  {
    if id1.Some? && id2.Some? then id1 == id2 else title1 == title2
  }

  /** The value of `hashCode`: the id's hash, else the title's hash, else 0. */
  function GroupHash(id: Option<string>, title: Option<string>): (h: int)
    ensures INT_MIN <= h <= INT_MAX
    ensures id.None? && title.None? ==> h == 0
  {
    if id.Some? then StringHash(id.value) else if title.Some? then StringHash(title.value) else 0
  }

  /** `equals` is reflexive and symmetric. */
  lemma GroupsEqualReflexiveSymmetric(id1: Option<string>, t1: Option<string>, id2: Option<string>, t2: Option<string>)
    ensures GroupsEqual(id1, t1, id1, t1)
    ensures GroupsEqual(id1, t1, id2, t2) == GroupsEqual(id2, t2, id1, t1)
  {
  }

  /**
   * A group with an id and one without but with the same title are equal,
   * yet their hash codes differ: ("a", "T") and (null, "T").
   */
  lemma EqualGroupsHashApart()
    ensures GroupsEqual(Some("a"), Some("T"), None, Some("T"))
    ensures GroupHash(Some("a"), Some("T")) != GroupHash(None, Some("T"))
  {
    assert "a"[..0] == [] && "T"[..0] == [];
    assert StringHash("a") == 97;
    assert StringHash("T") == 84;
  }

  /** Nor is `equals` transitive: ("a", "T") equals (null, "T"), which equals ("b", "T"). */
  lemma GroupsEqualNotTransitive()
    ensures GroupsEqual(Some("a"), Some("T"), None, Some("T"))
    ensures GroupsEqual(None, Some("T"), Some("b"), Some("T"))
    ensures !GroupsEqual(Some("a"), Some("T"), Some("b"), Some("T"))
  {
    assert "a" != "b";
  }

  /** What identifies a group: its id when set, else its title. */
  datatype GroupKey = ById(id: string) | ByTitle(title: Option<string>)

  function KeyOf(id: Option<string>, title: Option<string>): (k: GroupKey)
    ensures id.Some? ==> k == ById(id.value)
    ensures id.None? ==> k == ByTitle(title)
  {
    if id.Some? then ById(id.value) else ByTitle(title)
  }

  /** Equality on the key: groups with ids compare ids, groups without compare titles, and the two kinds differ. */
  predicate GroupsEqualIntended(id1: Option<string>, title1: Option<string>, id2: Option<string>, title2: Option<string>)
  {
    KeyOf(id1, title1) == KeyOf(id2, title2)
  }

  /**
   * Key equality is an equivalence, agrees with `equals` whenever both ids
   * are set or both are null, and equal groups have equal `hashCode`.
   */
  lemma GroupsEqualIntendedIsConsistent(
    id1: Option<string>, t1: Option<string>, id2: Option<string>, t2: Option<string>, id3: Option<string>, t3: Option<string>)
    ensures GroupsEqualIntended(id1, t1, id1, t1)
    ensures GroupsEqualIntended(id1, t1, id2, t2) == GroupsEqualIntended(id2, t2, id1, t1)
    ensures GroupsEqualIntended(id1, t1, id2, t2) && GroupsEqualIntended(id2, t2, id3, t3) ==> GroupsEqualIntended(id1, t1, id3, t3)
    ensures id1.Some? == id2.Some? ==> GroupsEqualIntended(id1, t1, id2, t2) == GroupsEqual(id1, t1, id2, t2)
    ensures GroupsEqualIntended(id1, t1, id2, t2) ==> GroupHash(id1, t1) == GroupHash(id2, t2)
  {
  }
}
