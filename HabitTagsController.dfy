/** Model of Controllers/HabitTagsController.cs: replacing the set of tags
    linked to a habit, and unlinking one tag. The HabitTags table is held as
    each habit's list of links, keyed by habit id (a habit with no links maps
    to the empty list); the Tags table is the set of its ids. The clock is an
    input. */
module HabitTagsController {

  /** A HabitTag row. */
  datatype HabitTag = HabitTag(habitId: string, tagId: string, createdAtUtc: int)

  /** The action results of the two handlers. */
  datatype TagsResult = NotFound | NoContent | BadRequest(message: string) | OkResult

  /** The ids of the tags a list of links points to. */
  function TagIdSet(links: seq<HabitTag>): set<string> {
    set l | l in links :: l.tagId
  }

  /** No two links of the list point to the same tag. */
  predicate DistinctTags(links: seq<HabitTag>) {
    forall i, j :: 0 <= i < j < |links| ==> links[i].tagId != links[j].tagId
  }

  predicate DistinctIds(ids: seq<string>) {
    forall i, j :: 0 <= i < j < |ids| ==> ids[i] != ids[j]
  }

  /** `habit.HabitTags.RemoveAll(ht => !tagIds.Contains(ht.TagId))`: the links
      to requested tags, in their old order. */
  function KeepRequested(links: seq<HabitTag>, requested: set<string>): (r: seq<HabitTag>)
    ensures forall l :: l in r <==> l in links && l.tagId in requested
  {
    if links == [] then []
    else
      var rest := KeepRequested(links[1..], requested);
      assert links == [links[0]] + links[1..];
      if links[0].tagId in requested then [links[0]] + rest else rest
  }

  /** The kept links point to the requested tags that were linked, each once. */
  lemma {:induction false} KeepRequestedTags(links: seq<HabitTag>, requested: set<string>)
    ensures TagIdSet(KeepRequested(links, requested)) == TagIdSet(links) * requested
    ensures DistinctTags(links) ==> DistinctTags(KeepRequested(links, requested))
  {
    var r := KeepRequested(links, requested);
    forall x | x in TagIdSet(links) * requested ensures x in TagIdSet(r) {
      var l :| l in links && l.tagId == x;
      assert l in r;
    }
    if links != [] && DistinctTags(links) {
      DistinctTail(links);
      KeepRequestedTags(links[1..], requested);
      if links[0].tagId in requested {
        var rest := KeepRequested(links[1..], requested);
        forall k | 0 <= k < |rest| ensures rest[k].tagId != links[0].tagId {
          assert rest[k] in links[1..];
          var m :| 0 <= m < |links[1..]| && links[1..][m] == rest[k];
          assert links[m + 1] == rest[k];
        }
      }
    }
  }

  lemma DistinctTail(links: seq<HabitTag>)
    requires links != [] && DistinctTags(links)
    ensures DistinctTags(links[1..])
  {
    var rest := links[1..];
    forall i, j | 0 <= i < j < |rest| ensures rest[i].tagId != rest[j].tagId {
      assert rest[i] == links[i + 1] && rest[j] == links[j + 1];
    }
  }

  /** `tagIds.Except(exclude)`: the distinct ids not excluded, in the order of
      their first appearance. */
  function Except(ids: seq<string>, exclude: set<string>): (r: seq<string>)
    ensures forall x :: x in r <==> x in ids && x !in exclude
    ensures DistinctIds(r)
  {
    if ids == [] then []
    else if ids[0] in exclude then Except(ids[1..], exclude)
    else [ids[0]] + Except(ids[1..], exclude + {ids[0]})
  }

  /** The new links of the AddRange, one per tag id, all stamped with the habit
      and the time. */
  function NewLinks(habitId: string, tagIds: seq<string>, utcNow: int): (r: seq<HabitTag>)
    ensures |r| == |tagIds|
    ensures forall i :: 0 <= i < |r| ==> r[i] == HabitTag(habitId, tagIds[i], utcNow)
  {
    seq(|tagIds|, i requires 0 <= i < |tagIds| => HabitTag(habitId, tagIds[i], utcNow))
  }

  /** The habit's links after a successful upsert. */
  function Reconciled(habitId: string, links: seq<HabitTag>, requested: seq<string>, utcNow: int): seq<HabitTag> {
    var current := TagIdSet(links);
    KeepRequested(links, set t | t in requested) + NewLinks(habitId, Except(requested, current), utcNow)
  }

  /** After an upsert the habit links to exactly the requested tags, each
      once; a kept link is the old link itself (with its CreatedAtUtc); every
      other link is new, for a tag that was not linked, stamped with the
      habit and the time. */
  lemma ReconciledLinks(habitId: string, links: seq<HabitTag>, requested: seq<string>, utcNow: int)
    requires DistinctTags(links)
    ensures var r := Reconciled(habitId, links, requested, utcNow);
      && TagIdSet(r) == (set t | t in requested)
      && DistinctTags(r)
      && (forall l :: l in links && l.tagId in requested ==> l in r)
      && (forall l :: l in r ==>
            (l in links && l.tagId in requested)
            || (l.habitId == habitId && l.createdAtUtc == utcNow && l.tagId !in TagIdSet(links)))
  {
    var req := set t | t in requested;
    var kept := KeepRequested(links, req);
    KeepRequestedTags(links, req);
    var added := Except(requested, TagIdSet(links));
    var newLinks := NewLinks(habitId, added, utcNow);
    NewLinksTags(habitId, added, utcNow);
    assert TagIdSet(newLinks) == req - TagIdSet(links);
    AppendTagIds(kept, newLinks);
    DistinctAppend(kept, newLinks);
    forall l | l in kept + newLinks
      ensures (l in links && l.tagId in requested)
        || (l.habitId == habitId && l.createdAtUtc == utcNow && l.tagId !in TagIdSet(links))
    {
      if l !in kept {
        var i :| 0 <= i < |newLinks| && newLinks[i] == l;
        assert added[i] in added;
      }
    }
  }

  /** The new links point to the given tags, each once when the ids are distinct. */
  lemma NewLinksTags(habitId: string, tagIds: seq<string>, utcNow: int)
    ensures TagIdSet(NewLinks(habitId, tagIds, utcNow)) == set t | t in tagIds
    ensures DistinctIds(tagIds) ==> DistinctTags(NewLinks(habitId, tagIds, utcNow))
  {
    var newLinks := NewLinks(habitId, tagIds, utcNow);
    forall x | x in TagIdSet(newLinks) ensures x in tagIds {
      var l :| l in newLinks && l.tagId == x;
      var i :| 0 <= i < |newLinks| && newLinks[i] == l;
    }
    forall x | x in tagIds ensures x in TagIdSet(newLinks) {
      var i :| 0 <= i < |tagIds| && tagIds[i] == x;
      assert newLinks[i] in newLinks;
    }
  }

  /** The tags of two lists of links together. */
  lemma AppendTagIds(a: seq<HabitTag>, b: seq<HabitTag>)
    ensures TagIdSet(a + b) == TagIdSet(a) + TagIdSet(b)
  {
    forall x | x in TagIdSet(a + b) ensures x in TagIdSet(a) + TagIdSet(b) {
      var l :| l in a + b && l.tagId == x;
    }
    forall x | x in TagIdSet(a) + TagIdSet(b) ensures x in TagIdSet(a + b) {
      if x in TagIdSet(a) {
        var l :| l in a && l.tagId == x;
        assert l in a + b;
      } else {
        var l :| l in b && l.tagId == x;
        assert l in a + b;
      }
    }
  }

  lemma OneTagId(l: HabitTag)
    ensures TagIdSet([l]) == {l.tagId}
  {
    assert l in [l];
  }

  /** Two lists of links with distinct tags and no tag in common concatenate
      to a list with distinct tags. */
  lemma DistinctAppend(a: seq<HabitTag>, b: seq<HabitTag>)
    requires DistinctTags(a) && DistinctTags(b) && TagIdSet(a) !! TagIdSet(b)
    ensures DistinctTags(a + b)
  {
    var r := a + b;
    forall i, j | 0 <= i < j < |r| ensures r[i].tagId != r[j].tagId {
      if j < |a| {
        assert r[i] == a[i] && r[j] == a[j];
      } else if i >= |a| {
        assert r[i] == b[i - |a|] && r[j] == b[j - |a|];
      } else {
        assert r[i] == a[i] && r[j] == b[j - |a|];
        assert a[i] in a && b[j - |a|] in b;
        assert a[i].tagId in TagIdSet(a) && b[j - |a|].tagId in TagIdSet(b);
      }
    }
  }

  /** The number of existing tags whose id is requested. */
  function ExistingCount(tagIds: set<string>, requested: seq<string>): nat {
    |set t | t in tagIds && t in requested|
  }

  /** The number of existing tags matching the request equals the request's
      length exactly when every requested id is an existing tag and no id is
      requested twice. */
  lemma ExistingCountCheck(tagIds: set<string>, requested: seq<string>)
    ensures ExistingCount(tagIds, requested) == |requested|
        <==> DistinctIds(requested) && (forall i :: 0 <= i < |requested| ==> requested[i] in tagIds)
  {
    var existing := set t | t in tagIds && t in requested;
    var req := set t | t in requested;
    DistinctCardinality(requested);
    assert existing <= req;
    if existing != req {
      var x :| x in req && x !in existing;
      var k :| 0 <= k < |requested| && requested[k] == x;
      assert x !in tagIds;
      SubsetCardinality(existing, req - {x});
    } else {
      assert forall i :: 0 <= i < |requested| ==> requested[i] in tagIds by {
        forall i | 0 <= i < |requested| ensures requested[i] in tagIds {
          assert requested[i] in req;
        }
      }
    }
  }

  lemma SubsetCardinality<T>(a: set<T>, b: set<T>)
    requires a <= b
    ensures |a| <= |b|
    decreases b
  {
    if a != {} {
      var x :| x in a;
      SubsetCardinality(a - {x}, b - {x});
    }
  }

  /** A list has as many distinct elements as entries exactly when no entry
      repeats. */
  lemma {:induction false} DistinctCardinality(ids: seq<string>)
    ensures |set t | t in ids| <= |ids|
    ensures |set t | t in ids| == |ids| <==> DistinctIds(ids)
  {
    if ids != [] {
      var rest := ids[1..];
      DistinctCardinality(rest);
      assert (set t | t in ids) == (set t | t in rest) + {ids[0]} by {
        assert ids == [ids[0]] + rest;
      }
      DistinctCons(ids);
    }
  }

  /** A list without repeats is a first entry that does not recur, ahead of a
      tail without repeats. */
  lemma DistinctCons(ids: seq<string>)
    requires ids != []
    ensures DistinctIds(ids) <==> ids[0] !in ids[1..] && DistinctIds(ids[1..])
  {
    var rest := ids[1..];
    if ids[0] in rest {
      var k :| 0 <= k < |rest| && rest[k] == ids[0];
      assert ids[k + 1] == ids[0];
    } else if DistinctIds(rest) {
      forall i, j | 0 <= i < j < |ids| ensures ids[i] != ids[j] {
        if i == 0 {
          assert ids[j] == rest[j - 1];
        } else {
          assert ids[i] == rest[i - 1] && ids[j] == rest[j - 1];
        }
      }
    }
    if DistinctIds(ids) {
      forall i, j | 0 <= i < j < |rest| ensures rest[i] != rest[j] {
        assert rest[i] == ids[i + 1] && rest[j] == ids[j + 1];
      }
    }
  }

  /** `dbContext.HabitTags.Remove(habitTag)` on the habit's links. */
  function RemoveTag(links: seq<HabitTag>, tagId: string): (r: seq<HabitTag>)
    ensures forall l :: l in r <==> l in links && l.tagId != tagId
  {
    if links == [] then []
    else
      assert links == [links[0]] + links[1..];
      (if links[0].tagId == tagId then [] else [links[0]]) + RemoveTag(links[1..], tagId)
  }

  /** Deleting a linked tag removes exactly one link, that one, and keeps
      the order of the others. */
  lemma {:induction false} RemoveTagRemovesOne(links: seq<HabitTag>, tagId: string)
    requires DistinctTags(links) && tagId in TagIdSet(links)
    ensures |RemoveTag(links, tagId)| == |links| - 1
    ensures TagIdSet(RemoveTag(links, tagId)) == TagIdSet(links) - {tagId}
  {
    var rest := links[1..];
    assert links == [links[0]] + rest;
    DistinctTail(links);
    AppendTagIds([links[0]], rest);
    OneTagId(links[0]);
    if links[0].tagId == tagId {
      forall k | 0 <= k < |rest| ensures rest[k].tagId != tagId {
        assert rest[k] == links[k + 1];
      }
      assert tagId !in TagIdSet(rest);
      NothingToRemove(rest, tagId);
      assert RemoveTag(links, tagId) == rest;
    } else {
      assert tagId in TagIdSet(rest);
      RemoveTagRemovesOne(rest, tagId);
      assert RemoveTag(links, tagId) == [links[0]] + RemoveTag(rest, tagId);
      AppendTagIds([links[0]], RemoveTag(rest, tagId));
    }
  }

  /** Removing a link keeps the other links distinct. */
  lemma {:induction false} RemoveTagKeepsDistinct(links: seq<HabitTag>, tagId: string)
    requires DistinctTags(links)
    ensures DistinctTags(RemoveTag(links, tagId))
  {
    if links != [] {
      DistinctTail(links);
      RemoveTagKeepsDistinct(links[1..], tagId);
      var rest := RemoveTag(links[1..], tagId);
      forall k | 0 <= k < |rest| ensures rest[k].tagId != links[0].tagId {
        assert rest[k] in links[1..];
        var m :| 0 <= m < |links[1..]| && links[1..][m] == rest[k];
        assert links[m + 1] == rest[k];
      }
    }
  }

  lemma {:induction false} NothingToRemove(links: seq<HabitTag>, tagId: string)
    requires tagId !in TagIdSet(links)
    ensures RemoveTag(links, tagId) == links
  {
    if links != [] {
      assert links[0] in links;
      assert TagIdSet(links[1..]) <= TagIdSet(links) by {
        forall x | x in TagIdSet(links[1..]) ensures x in TagIdSet(links) {
          var l :| l in links[1..] && l.tagId == x;
          assert l in links;
        }
      }
      NothingToRemove(links[1..], tagId);
      assert links == [links[0]] + links[1..];
    }
  }

  /** The HabitTags key (HabitId, TagId) and its foreign keys: each link
      belongs to the habit it is filed under, points to an existing tag,
      and no habit links a tag twice. */
  predicate LinksValid(habitTags: map<string, seq<HabitTag>>, tagIds: set<string>) {
    forall h :: h in habitTags ==>
      DistinctTags(habitTags[h])
      && forall i :: 0 <= i < |habitTags[h]| ==>
           habitTags[h][i].habitId == h && habitTags[h][i].tagId in tagIds
  }

  /** The controller over the Habits, Tags and HabitTags tables. */
  class HabitTagsController {
    /** Each habit's HabitTags, keyed by the habit's id. */
    var habitTags: map<string, seq<HabitTag>>
    /** The ids of the Tags table. */
    var tagIds: set<string>

    /** The tables keep the HabitTags keys. */
    ghost predicate Valid()
      reads this
    {
      LinksValid(habitTags, tagIds)
    }

    constructor (habitTags: map<string, seq<HabitTag>>, tagIds: set<string>)
      requires LinksValid(habitTags, tagIds)
      ensures Valid()
      ensures this.habitTags == habitTags && this.tagIds == tagIds
    {
      this.habitTags := habitTags;
      this.tagIds := tagIds;
    }

    /** UpsertTagToHabit(habitId, upsertHabitTagsDto) */
    method UpsertTagToHabit(habitId: string, requested: seq<string>, utcNow: int) returns (r: TagsResult)
      requires Valid()
      modifies this
      ensures Valid()
      ensures tagIds == old(tagIds)
      ensures habitId !in old(habitTags) ==> r == NotFound
      ensures (habitId in old(habitTags) && TagIdSet(old(habitTags[habitId])) == (set t | t in requested))
                ==> r == NoContent
      ensures (habitId in old(habitTags) && TagIdSet(old(habitTags[habitId])) != (set t | t in requested)
                && ExistingCount(tagIds, requested) != |requested|)
                ==> r.BadRequest?
      ensures (habitId in old(habitTags) && TagIdSet(old(habitTags[habitId])) != (set t | t in requested)
                && ExistingCount(tagIds, requested) == |requested|)
                ==> r == OkResult
      ensures r != OkResult ==> habitTags == old(habitTags)
      ensures r == OkResult ==>
                habitId in old(habitTags)
                && habitTags == old(habitTags)[habitId := Reconciled(habitId, old(habitTags[habitId]), requested, utcNow)]
      ensures r.NotFound? || r.NoContent? || r.BadRequest? || r.OkResult?
    {
      if habitId !in habitTags {
        return NotFound;
      }
      var links := habitTags[habitId];
      var currentTagIds := TagIdSet(links);
      if currentTagIds == set t | t in requested {
        return NoContent;
      }
      var existingCount := ExistingCount(tagIds, requested);
      if existingCount != |requested| {
        return BadRequest("One or more tags IDs is invalid.");
      }
      var reconciled := Reconciled(habitId, links, requested, utcNow);
      ReconciledLinks(habitId, links, requested, utcNow);
      ExistingCountCheck(tagIds, requested);
      ReconciledInvariant(habitId, links, requested, utcNow, tagIds);
      habitTags := habitTags[habitId := reconciled];
      r := OkResult;
    }

    /** DeleteHabitTag(habitId, tagId) */
    method DeleteHabitTag(habitId: string, tagId: string) returns (r: TagsResult)
      requires Valid()
      modifies this
      ensures Valid()
      ensures tagIds == old(tagIds)
      ensures r == NotFound <==> habitId !in old(habitTags) || tagId !in TagIdSet(old(habitTags[habitId]))
      ensures r == NotFound ==> habitTags == old(habitTags)
      ensures r != NotFound ==>
                r == NoContent && habitId in old(habitTags)
                && habitTags == old(habitTags)[habitId := RemoveTag(old(habitTags[habitId]), tagId)]
    {
      if habitId !in habitTags || tagId !in TagIdSet(habitTags[habitId]) {
        return NotFound;
      }
      var remaining := RemoveTag(habitTags[habitId], tagId);
      RemoveTagKeepsDistinct(habitTags[habitId], tagId);
      forall i | 0 <= i < |remaining| ensures remaining[i].habitId == habitId && remaining[i].tagId in tagIds {
        assert remaining[i] in habitTags[habitId];
      }
      habitTags := habitTags[habitId := remaining];
      r := NoContent;
    }
  }

  /** A successful upsert keeps the links filed under their habit, pointing
      to existing tags, each tag at most once. */
  lemma ReconciledInvariant(habitId: string, links: seq<HabitTag>, requested: seq<string>, utcNow: int,
                            tagIds: set<string>)
    requires DistinctTags(links)
    requires forall i :: 0 <= i < |links| ==> links[i].habitId == habitId
    requires forall i :: 0 <= i < |requested| ==> requested[i] in tagIds
    ensures var r := Reconciled(habitId, links, requested, utcNow);
      DistinctTags(r) && forall i :: 0 <= i < |r| ==> r[i].habitId == habitId && r[i].tagId in tagIds
  {
    var r := Reconciled(habitId, links, requested, utcNow);
    ReconciledLinks(habitId, links, requested, utcNow);
    forall i | 0 <= i < |r| ensures r[i].habitId == habitId && r[i].tagId in tagIds {
      assert r[i] in r;
      assert r[i].tagId in TagIdSet(r);
      if r[i] in links {
        var k :| 0 <= k < |links| && links[k] == r[i];
      }
    }
  }
}
