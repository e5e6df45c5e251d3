/**
 * The two one-shot intersection-observer callbacks: the fade-in reveal and the
 * lazy image loader. Elements are handles (numbers); the browser reports an
 * entry per observed element with whether it is intersecting, and both
 * callbacks stop observing an element the first time it intersects.
 */
module Observers {

  /** Element handles. */
  type ElementId = nat

  /** An intersection-observer entry. */
  datatype Entry = Entry(target: ElementId, isIntersecting: bool)

  /** Targets of the intersecting entries, in order. */
  function IntersectingTargets(entries: seq<Entry>): seq<ElementId>
    decreases |entries|
  {
    if entries == [] then []
    else
      var last := entries[|entries| - 1];
      IntersectingTargets(entries[..|entries| - 1]) + (if last.isIntersecting then [last.target] else [])
  }

  function IntersectingSet(entries: seq<Entry>): set<ElementId> {
    set x | x in IntersectingTargets(entries)
  }

  /** The targets listed are exactly those of the intersecting entries. */
  lemma {:induction false} IntersectingTargetsExact(entries: seq<Entry>)
    ensures forall x :: x in IntersectingTargets(entries) <==> exists k :: 0 <= k < |entries| && entries[k] == Entry(x, true)
    decreases |entries|
  {
    if entries != [] {
      var init := entries[..|entries| - 1];
      IntersectingTargetsExact(init);
      assert forall k :: 0 <= k < |init| ==> init[k] == entries[k];
    }
  }

  /** Extending the batch by one entry extends the targets by at most that entry's target. */
  lemma IntersectingStep(entries: seq<Entry>, i: nat)
    requires i < |entries|
    ensures IntersectingTargets(entries[..i + 1]) ==
      IntersectingTargets(entries[..i]) + (if entries[i].isIntersecting then [entries[i].target] else [])
  {
    assert entries[..i + 1][..i] == entries[..i];
  }

  // ---------------------------------------------------------------------------
  // Fade-in reveal

  /**
   * The reveal observer: an intersecting element gets a reveal timer (its
   * `data-delay`, in any order of firing) that adds the `visible` class, and
   * is unobserved at once.
   */
  class RevealObserver {
    var observed: set<ElementId>
    /** Elements whose reveal timer has not fired yet. */
    var pending: seq<ElementId>
    /** Elements with the `visible` class. */
    var visible: set<ElementId>
    /** Every element whose reveal was ever scheduled. */
    ghost var scheduled: set<ElementId>

    /** A scheduled element is never observed again, so no later callback schedules it twice. */
    ghost predicate Valid()
      reads this
    {
      && scheduled !! observed
      && (forall k :: 0 <= k < |pending| ==> pending[k] in scheduled)
      && visible <= scheduled
    }

    /** `observer.observe` on every animated element. */
    constructor (animated: set<ElementId>)
      ensures Valid() && observed == animated && pending == [] && visible == {}
    {
      observed := animated;
      pending := [];
      visible := {};
      scheduled := {};
    }

    /**
     * The callback on a batch of entries for observed elements: every
     * intersecting target is scheduled (for the first time) and unobserved.
     */
    method OnEntries(entries: seq<Entry>)
      requires Valid()
      requires forall k :: 0 <= k < |entries| ==> entries[k].target in observed
      modifies this
      ensures Valid()
      ensures IntersectingSet(entries) !! old(scheduled)
      ensures observed == old(observed) - IntersectingSet(entries)
      ensures pending == old(pending) + IntersectingTargets(entries)
      ensures scheduled == old(scheduled) + IntersectingSet(entries)
      ensures visible == old(visible)
    {
      ghost var observed0 := observed;
      IntersectingTargetsExact(entries);
      var i := 0;
      while i < |entries|
        invariant 0 <= i <= |entries|
        invariant observed == old(observed) - IntersectingSet(entries[..i])
        invariant pending == old(pending) + IntersectingTargets(entries[..i])
        invariant scheduled == old(scheduled) + IntersectingSet(entries[..i])
        invariant IntersectingSet(entries[..i]) <= observed0
        invariant visible == old(visible)
        invariant Valid()
      {
        IntersectingStep(entries, i);
        var entry := entries[i];
        if entry.isIntersecting {
          pending := pending + [entry.target];
          scheduled := scheduled + {entry.target};
          observed := observed - {entry.target};
        }
        i := i + 1;
      }
      assert entries[..i] == entries;
    }

    /** The reveal timer of `pending[k]` fires: the element becomes visible. */
    method FireReveal(k: nat)
      requires Valid() && k < |pending|
      modifies this
      ensures Valid()
      ensures visible == old(visible) + {old(pending)[k]}
      ensures pending == old(pending)[..k] + old(pending)[k + 1..]
      ensures observed == old(observed) && scheduled == old(scheduled)
    {
      visible := visible + {pending[k]};
      pending := pending[..k] + pending[k + 1..];
    }
  }

  // ---------------------------------------------------------------------------
  // Lazy images

  /** An `img[data-src]`: its `src`, its `data-src` and its `lazy` class. */
  datatype Image = Image(src: string, dataSrc: string, lazy: bool)

  /** Copy `data-src` into `src` and drop the `lazy` class. */
  function Loaded(img: Image): Image {
    img.(src := img.dataSrc, lazy := false)
  }

  /** The images with every target in `loaded` loaded. */
  function LoadAll(images: map<ElementId, Image>, loaded: set<ElementId>): map<ElementId, Image> {
    map id | id in images :: if id in loaded then Loaded(images[id]) else images[id]
  }

  lemma LoadOneMore(original: map<ElementId, Image>, loaded: set<ElementId>, t: ElementId)
    requires t in original
    ensures var current := LoadAll(original, loaded);
      current[t := Loaded(current[t])] == LoadAll(original, loaded + {t})
  {
  }

  /** Loading more images keeps every unobserved image loaded. */
  lemma LoadAllKeepsLoaded(original: map<ElementId, Image>, observed: set<ElementId>, loaded: set<ElementId>)
    requires forall id :: id in original && id !in observed ==> original[id] == Loaded(original[id])
    ensures var current := LoadAll(original, loaded);
      forall id :: id in current && id !in observed - loaded ==> current[id] == Loaded(current[id])
  {
  }

  /**
   * The lazy-load observer: every image with a `data-src` is observed; an
   * intersecting one is loaded and unobserved.
   */
  class LazyLoader {
    var images: map<ElementId, Image>
    var observed: set<ElementId>

    /** An image is either still observed or already loaded. */
    ghost predicate Valid()
      reads this
    {
      && observed <= images.Keys
      && forall id :: id in images && id !in observed ==> images[id] == Loaded(images[id])
    }

    constructor (images: map<ElementId, Image>)
      ensures Valid() && this.images == images && observed == images.Keys
    {
      this.images := images;
      observed := images.Keys;
    }

    /** The callback on a batch of entries for observed images. */
    method OnEntries(entries: seq<Entry>)
      requires Valid()
      requires forall k :: 0 <= k < |entries| ==> entries[k].target in observed
      modifies this
      ensures Valid()
      ensures observed == old(observed) - IntersectingSet(entries)
      ensures images.Keys == old(images).Keys
      ensures forall id :: id in images ==>
        images[id] == if id in IntersectingSet(entries) then Loaded(old(images)[id]) else old(images)[id]
    {
      ghost var observed0 := observed;
      IntersectingTargetsExact(entries);
      var i := 0;
      while i < |entries|
        invariant 0 <= i <= |entries|
        invariant observed == old(observed) - IntersectingSet(entries[..i])
        invariant IntersectingSet(entries[..i]) <= observed0
        invariant images == LoadAll(old(images), IntersectingSet(entries[..i]))
      {
        IntersectingStep(entries, i);
        var entry := entries[i];
        if entry.isIntersecting {
          LoadOneMore(old(images), IntersectingSet(entries[..i]), entry.target);
          var img := images[entry.target];
          images := images[entry.target := img.(src := img.dataSrc, lazy := false)];
          observed := observed - {entry.target};
        }
        i := i + 1;
      }
      assert entries[..i] == entries;
      assert images == LoadAll(old(images), IntersectingSet(entries));
      LoadAllKeepsLoaded(old(images), old(observed), IntersectingSet(entries));
    }
  }
}
