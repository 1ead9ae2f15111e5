/**
 * Publisher-confirm bookkeeping: the delivery-tag counter and the list of
 * tags published but not yet acknowledged, as values. The exchange class
 * keeps them in two fields and updates them with these functions.
 */
module Confirms {

  /**
   * The invariant the bookkeeping keeps: the outstanding tags are strictly
   * increasing, positive, and all below the next tag to be assigned (so the
   * list is empty while tagging is off, `next == 0`).
   */
  ghost predicate TagsValid(tags: seq<int>, next: int) {
    && (forall i, j :: 0 <= i < j < |tags| ==> tags[i] < tags[j])
    && (forall i :: 0 <= i < |tags| ==> 0 < tags[i] < next)
  }

  /** `QVector::indexOf`: the first index holding `x`, or -1. */
  function IndexOf(s: seq<int>, x: int): (r: int)
    ensures r == -1 <==> x !in s
    ensures r != -1 ==> 0 <= r < |s| && s[r] == x && x !in s[..r]
  {
    if s == [] then -1
    else if s[0] == x then 0
    else
      var k := IndexOf(s[1..], x);
      if k == -1 then -1
      else
        assert s[..k + 1] == [s[0]] + s[1..][..k];
        k + 1
  }

  /** The tag list after one publish: the current tag is appended when tagging is on. */
  function PublishTags(tags: seq<int>, next: int): (r: seq<int>)
  {
    if next > 0 then tags + [next] else tags
  }

  /** The counter after one publish: it moves on by one when tagging is on. */
  function PublishNext(next: int): (r: int)
  {
    if next > 0 then next + 1 else next
  }

  /** `enableConfirms` seeds the counter at 1 the first time and leaves it alone after. */
  function EnableNext(next: int): (r: int)
    ensures next == 0 ==> r == 1
    ensures next != 0 ==> r == next
  {
    if next == 0 then 1 else next
  }

  /**
   * The tag list after a basic.ack: tag 0 clears it; an unknown tag leaves it
   * as it was; a known tag removes the prefix through its position (multiple)
   * or just that position.
   */
  function AfterAck(tags: seq<int>, tag: int, multiple: bool): (r: seq<int>)
    ensures tag == 0 ==> r == []
    ensures tag != 0 && tag !in tags ==> r == tags
    ensures tag != 0 && tag in tags ==> |r| < |tags|
  {
    if tag == 0 then []
    else
      var idx := IndexOf(tags, tag);
      if idx == -1 then tags
      else if multiple then tags[idx + 1..]
      else tags[..idx] + tags[idx + 1..]
  }

  /** Publishing keeps the invariant, and the new tag is the greatest one. */
  lemma PublishKeepsTagsValid(tags: seq<int>, next: int)
    requires TagsValid(tags, next)
    ensures TagsValid(PublishTags(tags, next), PublishNext(next))
    ensures next > 0 ==> PublishTags(tags, next)[|tags|] == next
  {
    var r := PublishTags(tags, next);
    if next > 0 {
      forall i, j | 0 <= i < j < |r| ensures r[i] < r[j] {
        if j == |tags| { assert r[i] == tags[i]; }
      }
    }
  }

  /**
   * Enabling confirms turns tagging on for good, and enabling it again once
   * tagging is on changes nothing: the counter is never reset.
   */
  lemma EnableTwiceIsEnableOnce(next: int)
    requires next >= 0
    ensures EnableNext(next) > 0
    ensures EnableNext(EnableNext(next)) == EnableNext(next)
    ensures next > 0 ==> EnableNext(next) == next
  {
  }

  /** Enabling confirms keeps the invariant. */
  lemma EnableKeepsTagsValid(tags: seq<int>, next: int)
    requires next >= 0 && TagsValid(tags, next)
    ensures TagsValid(tags, EnableNext(next))
  {
  }

  /** Tags `lo`, `lo + 1`, ..., `hi - 1`. */
  function Range(lo: int, hi: int): (r: seq<int>)
    decreases hi - lo
  {
    if lo >= hi then [] else [lo] + Range(lo + 1, hi)
  }

  /** The tag list after `n` publishes. */
  function PublishTagsN(tags: seq<int>, next: int, n: nat): (r: seq<int>)
    decreases n
  {
    if n == 0 then tags else PublishTagsN(PublishTags(tags, next), PublishNext(next), n - 1)
  }

  /** The counter after `n` publishes. */
  function PublishNextN(next: int, n: nat): (r: int)
    decreases n
  {
    if n == 0 then next else PublishNextN(PublishNext(next), n - 1)
  }

  /**
   * Once tagging is on, `n` publishes append the consecutive tags
   * next, next + 1, ..., next + n - 1 (no gaps, no repeats) and the counter
   * ends at next + n.
   */
  lemma {:induction false} PublishesAssignConsecutiveTags(tags: seq<int>, next: int, n: nat)
    requires next > 0
    ensures PublishTagsN(tags, next, n) == tags + Range(next, next + n)
    ensures PublishNextN(next, n) == next + n
    decreases n
  {
    if n > 0 {
      PublishesAssignConsecutiveTags(tags + [next], next + 1, n - 1);
      assert Range(next, next + n) == [next] + Range(next + 1, next + n);
    }
  }

  /** While tagging is off, publishes change neither the list nor the counter. */
  lemma {:induction false} PublishesWithoutTagging(tags: seq<int>, n: nat)
    ensures PublishTagsN(tags, 0, n) == tags
    ensures PublishNextN(0, n) == 0
  {
    if n > 0 {
      PublishesWithoutTagging(tags, n - 1);
    }
  }

  /**
   * A multiple ack of a known tag T keeps exactly the outstanding tags
   * greater than T, as a suffix of the list (their order unchanged).
   */
  lemma MultipleAckKeepsGreater(tags: seq<int>, next: int, tag: int)
    requires TagsValid(tags, next) && tag != 0 && tag in tags
    ensures var r := AfterAck(tags, tag, true);
      && r == tags[|tags| - |r|..]
      && forall x :: x in r <==> x in tags && x > tag
  {
    var idx := IndexOf(tags, tag);
    var r := AfterAck(tags, tag, true);
    assert r == tags[idx + 1..];
    forall x ensures x in r <==> x in tags && x > tag {
      if x in tags {
        var i :| 0 <= i < |tags| && tags[i] == x;
        if x > tag { assert r[i - idx - 1] == x; }
      }
    }
  }

  /**
   * A single ack of a known tag T removes that one position and keeps the
   * others in order; with distinct tags, T is gone and every other tag stays.
   */
  lemma SingleAckRemovesOne(tags: seq<int>, next: int, tag: int)
    requires TagsValid(tags, next) && tag != 0 && tag in tags
    ensures var r := AfterAck(tags, tag, false);
      && |r| == |tags| - 1
      && multiset(r) == multiset(tags) - multiset{tag}
      && tag !in r
      && forall x :: x != tag ==> (x in r <==> x in tags)
  {
    var idx := IndexOf(tags, tag);
    var r := AfterAck(tags, tag, false);
    assert r == tags[..idx] + tags[idx + 1..];
    assert tags == tags[..idx] + [tag] + tags[idx + 1..];
    calc {
      multiset(tags);
      multiset(tags[..idx]) + multiset{tag} + multiset(tags[idx + 1..]);
      multiset(r) + multiset{tag};
    }
  }

  /** Dropping one position of a valid list leaves a valid list. */
  lemma RemoveAtKeepsTagsValid(tags: seq<int>, next: int, idx: int)
    requires TagsValid(tags, next) && 0 <= idx < |tags|
    ensures TagsValid(tags[..idx] + tags[idx + 1..], next)
  {
    var r := tags[..idx] + tags[idx + 1..];
    assert forall i :: 0 <= i < |r| ==> r[i] == tags[if i < idx then i else i + 1];
  }

  /** Every ack keeps the invariant: what remains is a sub-list of a sorted list. */
  lemma AckKeepsTagsValid(tags: seq<int>, next: int, tag: int, multiple: bool)
    requires TagsValid(tags, next)
    ensures TagsValid(AfterAck(tags, tag, multiple), next)
  {
    if tag != 0 && tag in tags && !multiple {
      RemoveAtKeepsTagsValid(tags, next, IndexOf(tags, tag));
    }
  }

  /**
   * A basic.ack with a non-zero tag drains the list exactly when the list was
   * not empty and either the ack is multiple and names the newest tag, or it
   * is single and the list held that one tag alone.
   */
  lemma AckDrainsExactly(tags: seq<int>, next: int, tag: int, multiple: bool)
    requires TagsValid(tags, next) && tag != 0
    ensures (tag in tags && AfterAck(tags, tag, multiple) == []) <==>
      tags != [] && (if multiple then tags[|tags| - 1] == tag else tags == [tag])
  {
  }
}
