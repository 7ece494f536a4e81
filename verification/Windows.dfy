/**
 The bounded duplicate filters of both ends: a set of remembered ids plus the order in which
 they were added, from which the oldest is dropped once more than `w` have been added.
 */
module Windows {

  /** The last `w` entries of a history. */
  function Last<T>(h: seq<T>, w: nat): (r: seq<T>)
    ensures |r| == if |h| <= w then |h| else w
  {
    if |h| <= w then h else h[|h| - w..]
  }

  function Elements<T>(h: seq<T>): set<T> {
    set x | x in h
  }

  ghost predicate Distinct<T>(h: seq<T>) {
    forall i, j :: 0 <= i < j < |h| ==> h[i] != h[j]
  }

  /** Equal entries are more than `w` positions apart. */
  ghost predicate Spaced<T>(h: seq<T>, w: nat) {
    forall i, j :: 0 <= i < j < |h| && h[i] == h[j] ==> w < j - i
  }

  /** The Manager's filter: the `seen` map's keys and the `seenOrder` slice. */
  datatype Window<T> = Window(seen: set<T>, order: seq<T>)

  function Empty<T>(): Window<T> {
    Window({}, [])
  }

  /** Adding an id, without asking whether it is already there. */
  function Mark<T>(win: Window<T>, id: T, w: nat): Window<T> {
    var order := win.order + [id];
    if |order| > w then
      Window((win.seen + {id}) - {order[0]}, order[1..])
    else
      Window(win.seen + {id}, order)
  }

  /** The filter after a whole history of additions. */
  function MarkAll<T>(h: seq<T>, w: nat): Window<T> {
    if h == [] then Empty() else Mark(MarkAll(h[..|h| - 1], w), h[|h| - 1], w)
  }

  /** Addition `p` put `id` in, and no addition from `p` on has pushed an `id` out. */
  ghost predicate Survives<T>(h: seq<T>, w: nat, id: T, p: int) {
    && 0 <= p < |h|
    && h[p] == id
    && forall q :: 0 <= q < |h| && h[q] == id ==> !(p <= q + w < |h|)
  }

  /** Whatever was added, and however often, the slice holds the last `w` additions. */
  lemma {:induction false} OrderIsLast<T>(h: seq<T>, w: nat)
    ensures MarkAll(h, w).order == Last(h, w)
  {
    if h != [] {
      OrderIsLast(h[..|h| - 1], w);
    }
  }

  /** Which ids the filter holds, for every history, also one that adds an id it already holds. */
  lemma {:induction false} MarkedExactly<T>(h: seq<T>, w: nat, id: T)
    ensures id in MarkAll(h, w).seen <==> exists p :: Survives(h, w, id, p)
  {
    if h != [] {
      var n := |h| - 1;
      MarkedExactly(h[..n], w, id);
      MarkStep(h, w, id);
      if exists p :: Survives(h, w, id, p) {
        var p :| Survives(h, w, id, p);
        SurvivesStep(h, w, id, p);
        assert h[n] == id || Survives(h[..n], w, id, p);
      }
      if h[n] == id && !(n >= w && h[n - w] == id) {
        SurvivesStep(h, w, id, n);
      } else if exists p :: Survives(h[..n], w, id, p) {
        var p :| Survives(h[..n], w, id, p);
        SurvivesStep(h, w, id, p);
      }
    }
  }

  /** An id that was added once is forgotten exactly when `w` others have been added since. */
  lemma ForgottenExactly<T>(h: seq<T>, w: nat, p: nat)
    requires p < |h| && forall q :: 0 <= q < |h| && h[q] == h[p] ==> q == p
    ensures h[p] !in MarkAll(h, w).seen <==> p + w < |h|
  {
    MarkedExactly(h, w, h[p]);
    assert Survives(h, w, h[p], p) <==> !(p + w < |h|);
  }

  lemma MarkStep<T>(h: seq<T>, w: nat, id: T)
    requires h != []
    ensures id in MarkAll(h, w).seen <==>
            && (h[|h| - 1] == id || id in MarkAll(h[..|h| - 1], w).seen)
            && !(|h| - 1 >= w && h[|h| - 1 - w] == id)
  {
    var g, x := h[..|h| - 1], h[|h| - 1];
    OrderIsLast(g, w);
    LastDrops(g, x, w);
    MarkIn(MarkAll(g, w), x, w, id);
  }

  lemma LastDrops<T>(g: seq<T>, x: T, w: nat)
    ensures |Last(g, w)| >= w <==> |g| >= w
    ensures |g| >= w ==> (Last(g, w) + [x])[0] == (g + [x])[|g| - w]
  {
  }

  lemma MarkIn<T>(win: Window<T>, x: T, w: nat, id: T)
    ensures id in Mark(win, x, w).seen <==>
            && (x == id || id in win.seen)
            && !(|win.order| >= w && (win.order + [x])[0] == id)
  {
  }

  lemma SurvivesStep<T>(h: seq<T>, w: nat, id: T, p: int)
    requires h != [] && 0 <= p < |h|
    ensures Survives(h, w, id, p) <==>
            && ((p == |h| - 1 && h[p] == id) || Survives(h[..|h| - 1], w, id, p))
            && !(|h| - 1 >= w && h[|h| - 1 - w] == id && p <= |h| - 1)
  {
    var n := |h| - 1;
    var g := h[..n];
    if Survives(h, w, id, p) && p < n {
      forall q | 0 <= q < |g| && g[q] == id
        ensures !(p <= q + w < |g|)
      {
        assert h[q] == id;
      }
    }
  }

  /** The keys stay inside the slice and within the bound, also when an id is added twice. */
  lemma {:induction false} KeysWithinOrder<T>(h: seq<T>, w: nat)
    ensures MarkAll(h, w).seen <= Elements(MarkAll(h, w).order)
    ensures |MarkAll(h, w).seen| <= w
  {
    OrderIsLast(h, w);
    forall id | id in MarkAll(h, w).seen
      ensures id in MarkAll(h, w).order
    {
      MarkedExactly(h, w, id);
      var p :| Survives(h, w, id, p);
      assert Last(h, w)[p - (|h| - |Last(h, w)|)] == id;
    }
    ElementsSize(Last(h, w));
    SubsetSize(MarkAll(h, w).seen, Elements(Last(h, w)));
  }

  /** Every addition was of an id the filter did not hold at the time. */
  ghost predicate Serial<T>(h: seq<T>, w: nat) {
    h == [] || (Serial(h[..|h| - 1], w) && h[|h| - 1] !in MarkAll(h[..|h| - 1], w).seen)
  }

  /** Asking before adding is the same as spacing the additions of one id. */
  lemma {:induction false} SerialIffSpaced<T>(h: seq<T>, w: nat)
    ensures Serial(h, w) <==> Spaced(h, w)
  {
    if h != [] {
      var n := |h| - 1;
      var g := h[..n];
      SerialIffSpaced(g, w);
      if Spaced(g, w) {
        SpacedSeen(g, w, h[n]);
        SpacedStep(h, w);
      }
    }
  }

  lemma SpacedStep<T>(h: seq<T>, w: nat)
    requires h != []
    ensures Spaced(h, w) <==> Spaced(h[..|h| - 1], w) && h[|h| - 1] !in Last(h[..|h| - 1], w)
  {
    var n := |h| - 1;
    var g := h[..n];
    assert forall k :: 0 <= k < n ==> g[k] == h[k];
    LastIn(g, w, h[n]);
  }

  lemma LastIn<T>(h: seq<T>, w: nat, id: T)
    ensures id in Last(h, w) <==> exists p :: 0 <= p < |h| <= p + w && h[p] == id
  {
    if p :| 0 <= p < |h| <= p + w && h[p] == id {
      assert Last(h, w)[p - (|h| - |Last(h, w)|)] == id;
    }
  }

  /** In a spaced history the filter is the set of the last `w` entries. */
  lemma SpacedSeen<T>(h: seq<T>, w: nat, id: T)
    requires Spaced(h, w)
    ensures id in MarkAll(h, w).seen <==> id in Last(h, w)
  {
    MarkedExactly(h, w, id);
    LastIn(h, w, id);
    if p :| 0 <= p < |h| <= p + w && h[p] == id {
      assert Survives(h, w, id, p);
    }
  }

  /** Window refinement: asking first, the keys are exactly the last `w` additions, each once. */
  lemma SerialWindow<T>(h: seq<T>, w: nat)
    requires Serial(h, w)
    ensures MarkAll(h, w) == Window(Elements(Last(h, w)), Last(h, w))
    ensures Distinct(Last(h, w))
    ensures |MarkAll(h, w).seen| == |Last(h, w)| <= w
  {
    SerialIffSpaced(h, w);
    OrderIsLast(h, w);
    forall id {
      SpacedSeen(h, w, id);
    }
    assert MarkAll(h, w).seen == Elements(Last(h, w));
    DistinctSize(Last(h, w));
  }

  /** Between two additions of one id lie at least `w` other ids, all different. */
  lemma SpacingDistinct<T>(before: seq<T>, id: T, between: seq<T>, w: nat)
    requires Spaced(before + [id] + between + [id], w)
    ensures |Elements(between) - {id}| >= w
  {
    var h := before + [id] + between + [id];
    var i := |before|;
    assert h[i] == id && h[|h| - 1] == id;
    var mid := between[..w];
    forall k | 0 <= k < w
      ensures mid[k] == h[i + 1 + k] && mid[k] != id
    {
    }
    DistinctSize(mid);
    SubsetSize(Elements(mid), Elements(between) - {id});
  }

  /** A history that never mentions more than `w` ids adds each at most once. */
  lemma FewIdsAddedOnce<T>(h: seq<T>, w: nat)
    requires Spaced(h, w)
    requires |Elements(h)| <= w
    ensures Distinct(h)
  {
    forall i, j | 0 <= i < j < |h|
      ensures h[i] != h[j]
    {
      if h[i] == h[j] {
        var others := Elements(h[i + 1..j]) - {h[i]};
        var part := h[..i] + [h[i]] + h[i + 1..j] + [h[i]];
        assert part == h[..j + 1];
        SpacingDistinct(h[..i], h[i], h[i + 1..j], w);
        SubsetSize(others + {h[i]}, Elements(h));
      }
    }
  }

  /** Adding an id that is not among the last `w`: the history stays spaced and the window slides by one. */
  lemma Slide<T>(h: seq<T>, w: nat, id: T)
    requires Spaced(h, w) && id !in Last(h, w)
    ensures Spaced(h + [id], w)
    ensures Distinct(Last(h + [id], w))
    ensures Last(h + [id], w) == if |Last(h, w)| < w then Last(h, w) + [id] else (Last(h, w) + [id])[1..]
    ensures Elements(Last(h + [id], w)) ==
            if |Last(h, w)| < w then Elements(Last(h, w)) + {id}
            else Elements(Last(h, w)) + {id} - {(Last(h, w) + [id])[0]}
  {
    var g := h + [id];
    assert g[..|g| - 1] == h;
    SpacedStep(g, w);
    SerialIffSpaced(g, w);
    SerialWindow(g, w);
    SerialIffSpaced(h, w);
    SerialWindow(h, w);
  }

  /** The filter holds exactly the last `w` ids of `h`, and no id was added to `h` while it was held. */
  ghost predicate Holds<T>(win: Window<T>, h: seq<T>, w: nat) {
    win.order == Last(h, w) && win.seen == Elements(win.order) && Spaced(h, w)
  }

  lemma MarkSlides<T>(win: Window<T>, h: seq<T>, w: nat, id: T)
    requires Holds(win, h, w) && id !in win.seen
    ensures Holds(Mark(win, id, w), h + [id], w)
  {
    Slide(h, w, id);
  }

  lemma {:induction false} DistinctSize<T>(h: seq<T>)
    requires Distinct(h)
    ensures |Elements(h)| == |h|
  {
    if h != [] {
      var g, x := h[..|h| - 1], h[|h| - 1];
      DistinctSize(g);
      assert Elements(h) == Elements(g) + {x};
      assert x !in Elements(g);
    }
  }

  lemma {:induction false} ElementsSize<T>(h: seq<T>)
    ensures |Elements(h)| <= |h|
  {
    if h != [] {
      var g := h[..|h| - 1];
      ElementsSize(g);
      assert Elements(h) == Elements(g) + {h[|h| - 1]};
    }
  }

  lemma {:induction false} SubsetSize<T>(a: set<T>, b: set<T>)
    requires a <= b
    ensures |a| <= |b|
  {
    if x :| x in a {
      SubsetSize(a - {x}, b - {x});
    }
  }
}
