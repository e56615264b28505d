/**
 * The registry of open bubbles (`mWebHeads`, a `LinkedHashMap` keyed by URL):
 * its keys in insertion order, and the removal of one key.
 */
module Registry {

  /** The keys of the map: no URL occurs twice. */
  predicate Distinct(reg: seq<string>)
  {
    forall i, j :: 0 <= i < j < |reg| ==> reg[i] != reg[j]
  }

  /** `mWebHeads.remove(url)`: the registry without `url`, the other keys in their order. */
  function Remove(reg: seq<string>, url: string): (r: seq<string>)
    ensures forall x :: x in r <==> x in reg && x != url
    ensures |r| <= |reg|
  {
    if reg == [] then []
    else if reg[0] == url then Remove(reg[1..], url)
    else [reg[0]] + Remove(reg[1..], url)
  }

  /** Removing a URL that is not a key changes nothing. */
  lemma {:induction false} RemoveAbsent(reg: seq<string>, url: string)
    requires url !in reg
    ensures Remove(reg, url) == reg
  {
    if reg != [] {
      assert reg == [reg[0]] + reg[1..];
      RemoveAbsent(reg[1..], url);
    }
  }

  /** Removing the key at position `i` closes the gap and keeps every other key where it was, in order. */
  lemma {:induction false} RemoveAt(reg: seq<string>, url: string, i: nat)
    requires Distinct(reg) && i < |reg| && reg[i] == url
    ensures Remove(reg, url) == reg[..i] + reg[i + 1..]
    ensures |Remove(reg, url)| == |reg| - 1
    ensures Distinct(Remove(reg, url))
  {
    if i == 0 {
      assert url !in reg[1..];
      RemoveAbsent(reg[1..], url);
    } else {
      assert Distinct(reg[1..]);
      RemoveAt(reg[1..], url, i - 1);
      assert reg[..i] == [reg[0]] + reg[1..][..i - 1];
      assert reg[i + 1..] == reg[1..][i..];
    }
  }

  /** Removal keeps the keys unique. */
  lemma RemoveKeepsDistinct(reg: seq<string>, url: string)
    requires Distinct(reg)
    ensures Distinct(Remove(reg, url))
  {
    if url in reg {
      var i :| 0 <= i < |reg| && reg[i] == url;
      RemoveAt(reg, url, i);
    } else {
      RemoveAbsent(reg, url);
    }
  }

  /** Appending a URL that is not yet a key keeps the keys unique. */
  lemma AppendKeepsDistinct(reg: seq<string>, url: string)
    requires Distinct(reg) && url !in reg
    ensures Distinct(reg + [url])
  {
  }
}
