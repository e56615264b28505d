/**
 * The prefetch scheduler: from the registry (its URLs in insertion order) and
 * a reference URL it chooses the priority URL and the speculative URLs handed
 * to the custom-tab session (`getUrlStack`, `prepareNextSetOfUrls`,
 * `getPossibleUrls`).
 */
module Scheduler {
  import opened Wrappers
  import opened CaseFold

  /** One `mayLaunchUrl(priority, null, speculative)` request. */
  datatype Request = Request(priority: string, speculative: seq<string>)

  /** Some URL of `s` equals `ref` ignoring case. */
  ghost predicate HasMatch(s: seq<string>, ref: string)
  {
    exists j :: 0 <= j < |s| && EqIgnoreCase(s[j], ref)
  }

  /** The position of the first URL that equals `ref` ignoring case. */
  function FirstMatch(s: seq<string>, ref: string): (i: nat)
    requires HasMatch(s, ref)
    ensures i < |s| && EqIgnoreCase(s[i], ref)
    ensures forall j :: 0 <= j < i ==> !EqIgnoreCase(s[j], ref)
  {
    if EqIgnoreCase(s[0], ref) then 0
    else
      assert HasMatch(s[1..], ref) by {
        var j :| 0 <= j < |s| && EqIgnoreCase(s[j], ref);
        assert s[1..][j - 1] == s[j];
      }
      1 + FirstMatch(s[1..], ref)
  }

  /** The walk of `getUrlStack` over the values: every URL except the first that equals `ref` ignoring case. */
  function DropFirstMatch(s: seq<string>, ref: string): (r: seq<string>)
    ensures |r| == if HasMatch(s, ref) then |s| - 1 else |s|
  {
    if s == [] then []
    else if EqIgnoreCase(s[0], ref) then s[1..]
    else
      assert HasMatch(s, ref) == HasMatch(s[1..], ref) by {
        if HasMatch(s, ref) {
          var j :| 0 <= j < |s| && EqIgnoreCase(s[j], ref);
          assert s[1..][j - 1] == s[j];
        }
        if HasMatch(s[1..], ref) {
          var j :| 0 <= j < |s[1..]| && EqIgnoreCase(s[1..][j], ref);
          assert s[j + 1] == s[1..][j];
        }
      }
      [s[0]] + DropFirstMatch(s[1..], ref)
  }

  /**
   * The stack `getUrlStack(ref)` builds, bottom to top: when `ref` is a key
   * (exact, case-sensitive test) the registry without its first
   * case-insensitive match of `ref`; otherwise the whole registry.
   */
  function WorkingList(reg: seq<string>, ref: string): (w: seq<string>)
    ensures |w| == if ref in reg then |reg| - 1 else |reg|
  {
    if ref in reg then
      assert HasMatch(reg, ref) by {
        var j :| 0 <= j < |reg| && reg[j] == ref;
        EqIgnoreCaseReflexive(ref);
      }
      DropFirstMatch(reg, ref)
    else reg
  }

  /**
   * What `prepareNextSetOfUrls(ref)` asks for: nothing when the stack is
   * empty, otherwise its top as the priority URL and the rest, bottom to top,
   * as the speculative URLs.
   */
  function NextSet(reg: seq<string>, ref: string): (r: Option<Request>)
  {
    var w := WorkingList(reg, ref);
    if |w| == 0 then None else Some(Request(w[|w| - 1], w[..|w| - 1]))
  }

  lemma {:induction false} DropFirstMatchNoMatch(s: seq<string>, ref: string)
    requires !HasMatch(s, ref)
    ensures DropFirstMatch(s, ref) == s
  {
    if s != [] {
      assert !EqIgnoreCase(s[0], ref);
      forall j | 0 <= j < |s| - 1
        ensures !EqIgnoreCase(s[1..][j], ref)
      {
        assert s[1..][j] == s[j + 1];
      }
      DropFirstMatchNoMatch(s[1..], ref);
      assert s == [s[0]] + s[1..];
    }
  }

  /** The walk cuts the registry at its first case-insensitive match and keeps both sides in order. */
  lemma {:induction false} DropFirstMatchSplices(s: seq<string>, ref: string)
    requires HasMatch(s, ref)
    ensures DropFirstMatch(s, ref) == s[..FirstMatch(s, ref)] + s[FirstMatch(s, ref) + 1..]
  {
    if !EqIgnoreCase(s[0], ref) {
      var i := FirstMatch(s, ref);
      assert FirstMatch(s[1..], ref) == i - 1;
      DropFirstMatchSplices(s[1..], ref);
      assert s[..i] == [s[0]] + s[1..][..i - 1];
      assert s[i + 1..] == s[1..][i..];
    }
  }

  /** One more URL pushed at the end of the walk: the step of the loop in `getUrlStack`. */
  lemma {:induction false} DropFirstMatchAppend(s: seq<string>, x: string, ref: string)
    ensures HasMatch(s + [x], ref) == (HasMatch(s, ref) || EqIgnoreCase(x, ref))
    ensures DropFirstMatch(s + [x], ref) ==
      if HasMatch(s, ref) then DropFirstMatch(s, ref) + [x]
      else if EqIgnoreCase(x, ref) then s
      else s + [x]
  {
    assert HasMatch(s + [x], ref) == (HasMatch(s, ref) || EqIgnoreCase(x, ref)) by {
      if HasMatch(s, ref) {
        var j :| 0 <= j < |s| && EqIgnoreCase(s[j], ref);
        assert (s + [x])[j] == s[j];
      }
      if EqIgnoreCase(x, ref) {
        assert (s + [x])[|s|] == x;
      }
      if HasMatch(s + [x], ref) && !EqIgnoreCase(x, ref) {
        var j :| 0 <= j < |s + [x]| && EqIgnoreCase((s + [x])[j], ref);
        assert j < |s| && (s + [x])[j] == s[j];
      }
    }
    if s == [] {
      assert [x][1..] == [];
    } else {
      assert (s + [x])[0] == s[0] && (s + [x])[1..] == s[1..] + [x];
      if !EqIgnoreCase(s[0], ref) {
        DropFirstMatchAppend(s[1..], x, ref);
        assert HasMatch(s, ref) == HasMatch(s[1..], ref) by {
          if HasMatch(s, ref) {
            var j :| 0 <= j < |s| && EqIgnoreCase(s[j], ref);
            assert s[1..][j - 1] == s[j];
          }
          if HasMatch(s[1..], ref) {
            var j :| 0 <= j < |s[1..]| && EqIgnoreCase(s[1..][j], ref);
            assert s[j + 1] == s[1..][j];
          }
        }
        assert s == [s[0]] + s[1..];
      } else {
        assert HasMatch(s, ref) by { assert EqIgnoreCase(s[0], ref); }
      }
    }
  }

  /** A reference that is not an exact key leaves the whole registry as the working list. */
  lemma WorkingListReferenceAbsent(reg: seq<string>, ref: string)
    requires ref !in reg
    ensures WorkingList(reg, ref) == reg
  {
  }

  /**
   * A reference that is an exact key drops exactly one URL: the first one that
   * equals the reference ignoring case, which lies at or before the exact key.
   * The URLs before it and after it, later case-insensitive matches included,
   * keep their order.
   */
  lemma WorkingListReferenceIsKey(reg: seq<string>, ref: string)
    requires ref in reg
    ensures HasMatch(reg, ref)
    ensures forall j :: 0 <= j < |reg| && reg[j] == ref ==> FirstMatch(reg, ref) <= j
    ensures WorkingList(reg, ref) == reg[..FirstMatch(reg, ref)] + reg[FirstMatch(reg, ref) + 1..]
    ensures |WorkingList(reg, ref)| == |reg| - 1
  {
    var i := FirstMatch(reg, ref);
    forall j | 0 <= j < |reg| && reg[j] == ref
      ensures i <= j
    {
      EqIgnoreCaseReflexive(ref);
    }
    DropFirstMatchSplices(reg, ref);
  }

  /** Reference not a key: the priority URL is the last-inserted one and every other URL is speculative, in order. */
  lemma NextSetReferenceAbsent(reg: seq<string>, ref: string)
    requires ref !in reg
    ensures reg == [] <==> NextSet(reg, ref).None?
    ensures reg != [] ==> NextSet(reg, ref) == Some(Request(reg[|reg| - 1], reg[..|reg| - 1]))
  {
    WorkingListReferenceAbsent(reg, ref);
  }

  /**
   * Reference an exact key: a request exists unless that key was the only
   * bubble, and the speculative URLs followed by the priority URL are the
   * registry with its first case-insensitive match cut out.
   */
  lemma NextSetReferenceIsKey(reg: seq<string>, ref: string)
    requires ref in reg
    ensures |reg| == 1 <==> NextSet(reg, ref).None?
    ensures NextSet(reg, ref).Some? ==>
      |NextSet(reg, ref).value.speculative| == |reg| - 2
    ensures NextSet(reg, ref).Some? ==>
      NextSet(reg, ref).value.speculative + [NextSet(reg, ref).value.priority]
        == reg[..FirstMatch(reg, ref)] + reg[FirstMatch(reg, ref) + 1..]
  {
    WorkingListReferenceIsKey(reg, ref);
    NextSetSize(reg, ref);
  }

  /**
   * No bubble, no request; otherwise one request whose speculative list is
   * one shorter than the working list, and the speculative URLs followed by
   * the priority URL are the working list.
   */
  lemma NextSetSize(reg: seq<string>, ref: string)
    ensures NextSet(reg, ref).None? <==> |WorkingList(reg, ref)| == 0
    ensures reg == [] ==> NextSet(reg, ref).None?
    ensures NextSet(reg, ref).Some? ==>
      |NextSet(reg, ref).value.speculative| == |WorkingList(reg, ref)| - 1
    ensures NextSet(reg, ref).Some? ==>
      NextSet(reg, ref).value.speculative + [NextSet(reg, ref).value.priority] == WorkingList(reg, ref)
  {
    var w := WorkingList(reg, ref);
    if |w| > 0 {
      assert w[..|w| - 1] + [w[|w| - 1]] == w;
    }
  }

  /** Registry `[a, b, c]` with reference `b`: priority `c`, speculative `[a]`. */
  lemma ScenarioReferenceInMiddle()
    ensures NextSet(["a", "b", "c"], "b") == Some(Request("c", ["a"]))
  {
    var reg := ["a", "b", "c"];
    assert reg[1] == "b";
    assert !EqIgnoreCase("a", "b") by { assert FoldChar("a"[0]) != FoldChar("b"[0]); }
    EqIgnoreCaseReflexive("b");
    assert reg[1..] == ["b", "c"];
    assert DropFirstMatch(reg, "b") == ["a", "c"];
  }

  /** Registry `[a, b, c]` with an absent reference `z`: priority `c`, speculative `[a, b]`. */
  lemma ScenarioReferenceAbsent()
    ensures NextSet(["a", "b", "c"], "z") == Some(Request("c", ["a", "b"]))
  {
    assert "z"[0] != "a"[0] && "z"[0] != "b"[0] && "z"[0] != "c"[0];
    NextSetReferenceAbsent(["a", "b", "c"], "z");
    assert ["a", "b", "c"][..2] == ["a", "b"];
  }

  /**
   * A reference that matches a key only ignoring case is not a key, so
   * nothing is dropped: registry `[A, b]` with reference `a` asks for priority
   * `b` and speculative `[A]`.
   */
  lemma ScenarioCaseOnlyReference()
    ensures NextSet(["A", "b"], "a") == Some(Request("b", ["A"]))
  {
    assert "a"[0] != "A"[0] && "a"[0] != "b"[0];
    NextSetReferenceAbsent(["A", "b"], "a");
    assert ["A", "b"][..1] == ["A"];
  }

  /**
   * Two keys that differ only in case, the reference being the second: the
   * walk drops the first key, so the reference itself stays and becomes the
   * priority URL.
   */
  lemma ScenarioCaseVariantDroppedBeforeKey()
    ensures NextSet(["A", "a"], "a") == Some(Request("a", []))
  {
    var reg := ["A", "a"];
    assert reg[1] == "a";
    assert EqIgnoreCase("A", "a");
    assert DropFirstMatch(reg, "a") == ["a"];
  }

  /** `getUrlStack(ref)`: the push loops over the registry, with the `foundWebHead` flag. */
  method GetUrlStack(reg: seq<string>, ref: string) returns (stack: seq<string>)
    ensures stack == WorkingList(reg, ref)
  {
    stack := [];
    if ref in reg {
      var found := false;
      var i := 0;
      while i < |reg|
        invariant 0 <= i <= |reg|
        invariant found == HasMatch(reg[..i], ref)
        invariant stack == DropFirstMatch(reg[..i], ref)
      {
        DropFirstMatchAppend(reg[..i], reg[i], ref);
        if !found {
          DropFirstMatchNoMatch(reg[..i], ref);
          found := EqIgnoreCase(reg[i], ref);
          if !found {
            stack := stack + [reg[i]];
          }
        } else {
          stack := stack + [reg[i]];
        }
        assert reg[..i + 1] == reg[..i] + [reg[i]];
        i := i + 1;
      }
      assert reg[..i] == reg;
    } else {
      var i := 0;
      while i < |reg|
        invariant 0 <= i <= |reg|
        invariant stack == reg[..i]
      {
        stack := stack + [reg[i]];
        assert reg[..i + 1] == reg[..i] + [reg[i]];
        i := i + 1;
      }
      assert reg[..i] == reg;
    }
  }

  /**
   * The selection part of `prepareNextSetOfUrls(ref)`: pop the priority URL
   * off the stack, then walk what is left from bottom to top.
   */
  method SelectNextSetOfUrls(reg: seq<string>, ref: string) returns (req: Option<Request>)
    ensures req == NextSet(reg, ref)
  {
    var urlStack := GetUrlStack(reg, ref);
    req := None;
    if |urlStack| > 0 {
      var priorityUrl := urlStack[|urlStack| - 1];
      urlStack := urlStack[..|urlStack| - 1];
      var possibleUrls := [];
      var k := 0;
      while k < |urlStack|
        invariant 0 <= k <= |urlStack|
        invariant possibleUrls == urlStack[..k]
      {
        possibleUrls := possibleUrls + [urlStack[k]];
        assert urlStack[..k + 1] == urlStack[..k] + [urlStack[k]];
        k := k + 1;
      }
      assert urlStack[..k] == urlStack;
      req := Some(Request(priorityUrl, possibleUrls));
    }
  }

  /** `getPossibleUrls()`: every registry URL in registry order, none excluded. */
  method GetPossibleUrls(reg: seq<string>) returns (urls: seq<string>)
    ensures urls == reg
  {
    urls := [];
    var k := 0;
    while k < |reg|
      invariant 0 <= k <= |reg|
      invariant urls == reg[..k]
    {
      urls := urls + [reg[k]];
      k := k + 1;
    }
  }
}
