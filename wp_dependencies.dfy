/**
 * The part of WordPress's script/style registry (WP_Dependencies) that the
 * plugins read and change: the queue of enqueued handles and the map of
 * registered handles to their source URL and dependency list.
 * The queue never holds a handle twice, because enqueueing an already queued
 * handle does nothing.
 */
module WpDependencies {
  import opened PhpRuntime

  /** A registered script or style; an inline handle registered with src false has src "". */
  datatype Asset = Asset(src: string, deps: seq<string>)

  /** The list with every element of `drop` removed, the others kept in order (array_diff, or a dequeue). */
  function Without(s: seq<string>, drop: set<string>): (r: seq<string>)
    ensures |r| <= |s|
    ensures forall k :: 0 <= k < |r| ==> r[k] in s && r[k] !in drop
  {
    if s == [] then [] else (if s[0] in drop then [] else [s[0]]) + Without(s[1..], drop)
  }

  /** An element survives exactly when it was there and is not dropped. */
  lemma {:induction false} WithoutMembers(s: seq<string>, drop: set<string>, x: string)
    ensures x in Without(s, drop) <==> x in s && x !in drop
  {
    if s != [] {
      WithoutMembers(s[1..], drop, x);
      assert s == [s[0]] + s[1..];
    }
  }

  /** Dropping two sets one after the other is dropping their union. */
  lemma {:induction false} WithoutTwice(s: seq<string>, a: set<string>, b: set<string>)
    ensures Without(Without(s, a), b) == Without(s, a + b)
  {
    if s != [] {
      WithoutTwice(s[1..], a, b);
      var w := Without(s, a);
      if s[0] !in a {
        assert w == [s[0]] + Without(s[1..], a);
        assert w[0] == s[0] && w[1..] == Without(s[1..], a);
        assert Without(w, b) == (if s[0] in b then [] else [s[0]]) + Without(Without(s[1..], a), b);
      } else {
        assert w == Without(s[1..], a);
      }
      assert Without(s, a + b) == (if s[0] in a + b then [] else [s[0]]) + Without(s[1..], a + b);
    }
  }

  /** Dropping what is not there changes nothing. */
  lemma {:induction false} WithoutAbsent(s: seq<string>, drop: set<string>)
    requires forall k :: 0 <= k < |s| ==> s[k] !in drop
    ensures Without(s, drop) == s
  {
    if s != [] {
      WithoutAbsent(s[1..], drop);
    }
  }

  /** Removing handles from a list without repetitions leaves one without repetitions. */
  lemma {:induction false} WithoutKeepsDistinct(s: seq<string>, drop: set<string>)
    requires NoDuplicates(s)
    ensures NoDuplicates(Without(s, drop))
  {
    if s != [] {
      WithoutKeepsDistinct(s[1..], drop);
      assert s[0] !in s[1..];
      WithoutMembers(s[1..], drop, s[0]);
    }
  }

  class Registry {
    var queue: seq<string>
    var registered: map<string, Asset>

    ghost predicate Valid()
      reads this
    {
      NoDuplicates(queue)
    }

    constructor (queue: seq<string>, registered: map<string, Asset>)
      requires NoDuplicates(queue)
      ensures Valid()
      ensures this.queue == queue && this.registered == registered
    {
      this.queue := queue;
      this.registered := registered;
    }

    /** wp_dequeue_script / wp_dequeue_style: the handle leaves the queue, the rest keeps its order. */
    method Dequeue(handle: string)
      requires Valid()
      modifies this
      ensures Valid()
      ensures queue == Without(old(queue), {handle})
      ensures registered == old(registered)
    {
      WithoutKeepsDistinct(queue, {handle});
      queue := Without(queue, {handle});
    }

    /** wp_deregister_script / wp_deregister_style: the handle is no longer registered. */
    method Deregister(handle: string)
      requires Valid()
      modifies this
      ensures Valid()
      ensures registered == old(registered) - {handle}
      ensures queue == old(queue)
    {
      registered := registered - {handle};
    }

    /** Assigning `$registered[$handle]->deps` of a registered handle. */
    method SetDeps(handle: string, deps: seq<string>)
      requires Valid() && handle in registered
      modifies this
      ensures Valid()
      ensures registered == old(registered)[handle := Asset(old(registered)[handle].src, deps)]
      ensures queue == old(queue)
    {
      registered := registered[handle := Asset(registered[handle].src, deps)];
    }
  }
}
