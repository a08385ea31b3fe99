/** The posts slice of the Redux store (post.js): the status of the posts
    fetch as three reducer cases over `{posts, isLoading, error, isSuccess}`.
    The fetch itself is left out; its lifecycle actions are the inputs. The
    payload element type `P` is whatever the endpoint returns. */
module PostSlice {
  import opened Wrappers

  /** `error` is None for `null` (and for an absent message). */
  datatype PostState<P> = PostState(posts: seq<P>, isLoading: bool, error: Option<string>, isSuccess: bool)

  /** The three lifecycle actions of the `fetchPosts` thunk. */
  datatype Action<P> = Pending | Fulfilled(payload: seq<P>) | Rejected(message: Option<string>)

  /** `initialState`: nothing fetched, nothing in flight, no error, no success. */
  function Initial<P>(): (r: PostState<P>)
    ensures r.posts == [] && r.error.None?
    ensures !r.isLoading && !r.isSuccess && Consistent(r)
  {
    PostState([], false, None, false)
  }

  /** The `extraReducers` cases; each assigns some fields and leaves the rest. */
  function Reduce<P>(s: PostState<P>, a: Action<P>): (r: PostState<P>)
    ensures a.Pending? ==> r == PostState(s.posts, true, None, false)
    ensures a.Fulfilled? ==> r == PostState(a.payload, false, s.error, true)
    ensures a.Rejected? ==> r == PostState(s.posts, false, a.message, false)
  {
    match a
    case Pending => s.(isLoading := true, isSuccess := false, error := None)
    case Fulfilled(payload) => s.(isLoading := false, posts := payload, isSuccess := true)
    case Rejected(message) => s.(isLoading := false, error := message, isSuccess := false)
  }

  function Apply<P>(s: PostState<P>, actions: seq<Action<P>>): PostState<P>
    decreases |actions|
  {
    if |actions| == 0 then s else Apply(Reduce(s, actions[0]), actions[1..])
  }

  /** The store never shows loading and success at once. */
  predicate Consistent<P>(s: PostState<P>) {
    !(s.isLoading && s.isSuccess)
  }

  /** From the initial state (indeed from any consistent one), no sequence of
      actions makes `isLoading` and `isSuccess` both true. */
  lemma {:induction false} ApplyKeepsConsistent<P>(s: PostState<P>, actions: seq<Action<P>>)
    requires Consistent(s)
    ensures Consistent(Apply(s, actions))
    decreases |actions|
  {
    if |actions| > 0 {
      ApplyKeepsConsistent(Reduce(s, actions[0]), actions[1..]);
    }
  }

  /** A request that starts and then succeeds leaves no error behind. */
  lemma PendingThenFulfilled<P>(s: PostState<P>, payload: seq<P>)
    ensures Apply(s, [Pending, Fulfilled(payload)]) == PostState(payload, false, None, true)
  {
    ApplyLifecycle(s, Succeeded(payload));
  }

  /** One complete request: it starts, then succeeds or fails. */
  datatype Fetch<P> = Succeeded(payload: seq<P>) | Failed(message: Option<string>)

  function Lifecycle<P>(f: Fetch<P>): seq<Action<P>> {
    match f
    case Succeeded(p) => [Pending, Fulfilled(p)]
    case Failed(m) => [Pending, Rejected(m)]
  }

  /** The actions of requests run one after the other. */
  function Sequential<P>(fetches: seq<Fetch<P>>): seq<Action<P>>
    decreases |fetches|
  {
    if |fetches| == 0 then [] else Lifecycle(fetches[0]) + Sequential(fetches[1..])
  }

  lemma {:induction false} ApplyAppend<P>(s: PostState<P>, a: seq<Action<P>>, b: seq<Action<P>>)
    ensures Apply(s, a + b) == Apply(Apply(s, a), b)
    decreases |a|
  {
    if |a| > 0 {
      assert (a + b)[0] == a[0];
      assert (a + b)[1..] == a[1..] + b;
      ApplyAppend(Reduce(s, a[0]), a[1..], b);
    } else {
      assert a + b == b;
    }
  }

  /** The posts of the latest successful request, or `fallback` when none succeeded. */
  function LastPosts<P>(fetches: seq<Fetch<P>>, fallback: seq<P>): seq<P>
    decreases |fetches|
  {
    if |fetches| == 0 then fallback
    else if fetches[|fetches| - 1].Succeeded? then fetches[|fetches| - 1].payload
    else LastPosts(fetches[..|fetches| - 1], fallback)
  }

  /** After requests run one at a time, the store reflects the last of them:
      not loading; success with no error if it succeeded; its message and no
      success if it failed; and the posts of the latest successful request. */
  lemma {:induction false} SequentialFetches<P>(s: PostState<P>, fetches: seq<Fetch<P>>)
    requires |fetches| > 0
    ensures var r := Apply(s, Sequential(fetches));
            var last := fetches[|fetches| - 1];
            && !r.isLoading
            && (r.isSuccess <==> last.Succeeded?)
            && (last.Succeeded? ==> r.error == None)
            && (last.Failed? ==> r.error == last.message)
            && r.posts == LastPosts(fetches, s.posts)
    decreases |fetches|
  {
    var n := |fetches|;
    var front := fetches[..n - 1];
    SequentialSplit(front, fetches[n - 1]);
    assert fetches == front + [fetches[n - 1]];
    ApplyAppend(s, Sequential(front), Lifecycle(fetches[n - 1]));
    var mid := Apply(s, Sequential(front));
    ApplyLifecycle(mid, fetches[n - 1]);
    if n > 1 {
      SequentialFetches(s, front);
    } else {
      assert Sequential(front) == [];
    }
  }

  /** The state after one complete request. */
  lemma ApplyLifecycle<P>(s: PostState<P>, f: Fetch<P>)
    ensures Apply(s, Lifecycle(f)) == match f
      case Succeeded(p) => PostState(p, false, None, true)
      case Failed(m) => PostState(s.posts, false, m, false)
  {
    var a := Lifecycle(f);
    assert Apply(s, a) == Apply(Reduce(s, a[0]), a[1..]);
    assert Apply(Reduce(s, a[0]), a[1..]) == Apply(Reduce(Reduce(s, a[0]), a[1]), a[2..]);
  }

  lemma {:induction false} SequentialSplit<P>(front: seq<Fetch<P>>, last: Fetch<P>)
    ensures Sequential(front + [last]) == Sequential(front) + Lifecycle(last)
    decreases |front|
  {
    if |front| == 0 {
      assert front + [last] == [last];
    } else {
      assert (front + [last])[1..] == front[1..] + [last];
      SequentialSplit(front[1..], last);
    }
  }

  /** Overlapping requests are not guarded: a late success after another
      request's failure shows success together with the stale error. */
  lemma OverlappingFetchesKeepStaleError<P>(payload: seq<P>, message: string)
    ensures var r := Apply(Initial<P>(), [Pending, Pending, Rejected(Some(message)), Fulfilled(payload)]);
            r.isSuccess && r.error == Some(message)
  {
    var acts: seq<Action<P>> := [Pending, Pending, Rejected(Some(message)), Fulfilled(payload)];
    var s0 := Initial<P>();
    var s1 := Reduce(s0, Pending);
    var s2 := Reduce(s1, Pending);
    var s3 := Reduce(s2, Rejected(Some(message)));
    var s4 := Reduce(s3, Fulfilled(payload));
    assert Apply(s3, acts[3..]) == s4 by {
      assert Apply(s4, acts[4..]) == s4;
    }
    assert Apply(s2, acts[2..]) == Apply(s3, acts[3..]);
    assert Apply(s1, acts[1..]) == Apply(s2, acts[2..]);
    assert Apply(s0, acts) == Apply(s1, acts[1..]);
  }
}
