/** What the list of recent servers is, said of the visits. */
module UrlVisits {
  import opened Trimming
  import opened UrlHistory

  // ---- The URL of a visit -------------------------------------------------------------------------------------

  predicate AllWhite(s: string) {
    forall i :: 0 <= i < |s| ==> IsWhite(s[i])
  }

  predicate AllSlashes(s: string) {
    forall i :: 0 <= i < |s| ==> s[i] == '/'
  }

  /** White space at both ends and then slashes at the end come off, and nothing else. */
  lemma WhatIsVisited(w0: string, url: string, slashes: string, w1: string)
    requires AllWhite(w0) && AllWhite(w1) && AllSlashes(slashes)
    requires url != "" ==> !IsWhite(url[0]) && url[|url| - 1] != '/' && (slashes != "" || !IsWhite(url[|url| - 1]))
    ensures Clean(w0 + (url + slashes) + w1) == url
  {
    var s := url + slashes;
    if s != "" {
      assert s[|s| - 1] == if slashes == "" then url[|url| - 1] else '/';
      assert !IsWhite('/');
    }
    TakenOffTwice(IsWhite, IsSlash, w0, url, slashes, w1);
  }

  lemma TakenOffTwice<T>(p: T -> bool, q: T -> bool, a: seq<T>, s: seq<T>, back: seq<T>, b: seq<T>)
    requires forall i :: 0 <= i < |a| ==> p(a[i])
    requires forall i :: 0 <= i < |b| ==> p(b[i])
    requires forall i :: 0 <= i < |back| ==> q(back[i])
    requires s + back == [] || (!p((s + back)[0]) && !p((s + back)[|s + back| - 1]))
    requires s == [] || !q(s[|s| - 1])
    ensures TrimEnd(q, Trim(p, a + (s + back) + b)) == s
  {
    TrimTakesOff(p, a, s + back, b);
    TrimEndTakesOff(q, s, back);
    assert TrimEnd(q, s) == s;
  }

  // ---- The order of the list -----------------------------------------------------------------------------------

  /** What each visit puts on the list: its URL, or nothing if the list was not written or there is no URL. */
  function Kept(visits: seq<Visit>): seq<string> {
    if visits == [] then []
    else
      var v := visits[|visits| - 1];
      Kept(visits[..|visits| - 1]) + [if v.written then Clean(v.raw) else ""]
  }

  /** The list after so many entries. */
  function ListOf(kept: seq<string>): seq<string> {
    if kept == [] then [] else Moved(ListOf(kept[..|kept| - 1]), kept[|kept| - 1])
  }

  lemma {:induction false} EverythingIsListed(visits: seq<Visit>)
    ensures Everything(visits) == ListOf(Kept(visits)) && |Kept(visits)| == |visits|
  {
    if visits != [] {
      var n := |visits| - 1;
      EverythingIsListed(visits[..n]);
      ListOfMore(Kept(visits[..n]), if visits[n].written then Clean(visits[n].raw) else "");
    }
  }

  lemma ListOfMore(kept: seq<string>, u: string)
    ensures ListOf(kept + [u]) == Moved(ListOf(kept), u)
  {
    assert (kept + [u])[..|kept|] == kept;
  }

  /** Entry `k` is the last of `url`. */
  ghost predicate LastAt(kept: seq<string>, k: nat, url: string) {
    k < |kept| && kept[k] == url && url != "" && forall j :: k < j < |kept| ==> kept[j] != url
  }

  /** `at` says of each URL of the list where its last entry is. */
  ghost predicate LastEntries(kept: seq<string>, urls: seq<string>, at: seq<nat>) {
    |at| == |urls| && forall i :: 0 <= i < |urls| ==> LastAt(kept, at[i], urls[i])
  }

  ghost predicate Decreasing(at: seq<nat>) {
    forall i, j :: 0 <= i < j < |at| ==> at[i] > at[j]
  }

  ghost predicate AllListed(kept: seq<string>, urls: seq<string>) {
    forall k :: 0 <= k < |kept| && kept[k] != "" ==> kept[k] in urls
  }

  /** Where the URLs other than `u` have their last entries. */
  function AtWithout(urls: seq<string>, at: seq<nat>, u: string): seq<nat>
    requires |at| == |urls|
  {
    if urls == [] then []
    else (if urls[0] == u then [] else [at[0]]) + AtWithout(urls[1..], at[1..], u)
  }

  lemma {:induction false} AtWithoutIsPart(urls: seq<string>, at: seq<nat>, u: string, m: nat)
    requires |at| == |urls| && Decreasing(at) && forall i :: 0 <= i < |at| ==> at[i] < m
    ensures Decreasing(AtWithout(urls, at, u))
    ensures forall i :: 0 <= i < |AtWithout(urls, at, u)| ==> AtWithout(urls, at, u)[i] < m
  {
    if urls != [] {
      AtWithoutIsPart(urls[1..], at[1..], u, at[0]);
    }
  }

  lemma LastEntriesOfCons(kept: seq<string>, u: string, k: nat, urls: seq<string>, at: seq<nat>)
    requires LastAt(kept, k, u) && LastEntries(kept, urls, at)
    ensures LastEntries(kept, [u] + urls, [k] + at)
  {
    var urls', at' := [u] + urls, [k] + at;
    forall i | 0 <= i < |urls'| ensures LastAt(kept, at'[i], urls'[i]) {
      if i > 0 {
        assert LastAt(kept, at[i - 1], urls[i - 1]);
      }
    }
  }

  lemma LastEntriesOfRest(kept: seq<string>, urls: seq<string>, at: seq<nat>)
    requires LastEntries(kept, urls, at) && urls != []
    ensures LastAt(kept, at[0], urls[0]) && LastEntries(kept, urls[1..], at[1..])
  {
    forall i | 0 <= i < |urls[1..]| ensures LastAt(kept, at[1..][i], urls[1..][i]) {
      assert LastAt(kept, at[i + 1], urls[i + 1]);
    }
  }

  lemma {:induction false} LastEntriesWithout(kept: seq<string>, urls: seq<string>, at: seq<nat>, u: string)
    requires LastEntries(kept, urls, at)
    ensures LastEntries(kept, Without(urls, u), AtWithout(urls, at, u))
  {
    if urls != [] {
      LastEntriesOfRest(kept, urls, at);
      LastEntriesWithout(kept, urls[1..], at[1..], u);
      if urls[0] == u {
        assert [] + AtWithout(urls[1..], at[1..], u) == AtWithout(urls[1..], at[1..], u);
      } else {
        LastEntriesOfCons(kept, urls[0], at[0], Without(urls[1..], u), AtWithout(urls[1..], at[1..], u));
      }
    }
  }

  lemma LastEntriesOfMore(kept: seq<string>, urls: seq<string>, at: seq<nat>, u: string)
    requires LastEntries(kept, urls, at) && u !in urls
    ensures LastEntries(kept + [u], urls, at)
  {
    forall i | 0 <= i < |urls| ensures LastAt(kept + [u], at[i], urls[i]) {
      assert LastAt(kept, at[i], urls[i]);
    }
  }

  /** The list has the latest entry first, one for each URL, and every URL that was ever kept. */
  lemma {:induction false} LatestFirst(kept: seq<string>) returns (at: seq<nat>)
    ensures LastEntries(kept, ListOf(kept), at) && Decreasing(at) && AllListed(kept, ListOf(kept))
  {
    if kept == [] {
      at := [];
    } else {
      var n := |kept| - 1;
      var before := LatestFirst(kept[..n]);
      assert kept == kept[..n] + [kept[n]];
      at := MovedIsLatest(kept[..n], kept[n], ListOf(kept[..n]), before);
    }
  }

  lemma ListedMore(kept: seq<string>, urls: seq<string>, u: string)
    requires AllListed(kept, urls)
    ensures AllListed(kept + [u], Moved(urls, u))
  {
    WithoutKeeps(urls, u);
    forall k | 0 <= k < |kept + [u]| && (kept + [u])[k] != "" ensures (kept + [u])[k] in Moved(urls, u) {
      FrontOrLast(kept, u, k);
    }
  }

  lemma FrontOrLast(kept: seq<string>, u: string, k: nat)
    requires k < |kept + [u]|
    ensures if k < |kept| then (kept + [u])[k] == kept[k] else (kept + [u])[k] == u
  {
  }

  lemma MovedIsLatest(kept: seq<string>, u: string, urls: seq<string>, before: seq<nat>) returns (at: seq<nat>)
    requires LastEntries(kept, urls, before) && Decreasing(before) && AllListed(kept, urls)
    ensures LastEntries(kept + [u], Moved(urls, u), at) && Decreasing(at) && AllListed(kept + [u], Moved(urls, u))
  {
    ListedMore(kept, urls, u);
    if u == "" {
      at := before;
      NothingIsListed(kept, urls, before);
      LastEntriesOfMore(kept, urls, before, u);
    } else {
      at := [|kept|] + AtWithout(urls, before, u);
      NewestFirst(kept, u, Without(urls, u), AtWithout(urls, before, u), urls, before);
    }
  }

  lemma NewestFirst(kept: seq<string>, u: string, rest: seq<string>, at: seq<nat>, urls: seq<string>, before: seq<nat>)
    requires u != "" && LastEntries(kept, urls, before) && Decreasing(before)
    requires rest == Without(urls, u) && at == AtWithout(urls, before, u)
    ensures LastEntries(kept + [u], [u] + rest, [|kept|] + at) && Decreasing([|kept|] + at)
  {
    LastEntriesWithout(kept, urls, before, u);
    WithoutKeeps(urls, u);
    LastEntriesOfMore(kept, rest, at, u);
    LastIsLast(kept, u);
    LastEntriesOfCons(kept + [u], u, |kept|, rest, at);
    BeforeTheEnd(kept, urls, before);
    AtWithoutIsPart(urls, before, u, |kept|);
  }

  lemma LastIsLast(kept: seq<string>, u: string)
    requires u != ""
    ensures LastAt(kept + [u], |kept|, u)
  {
  }

  lemma BeforeTheEnd(kept: seq<string>, urls: seq<string>, at: seq<nat>)
    requires LastEntries(kept, urls, at)
    ensures forall i :: 0 <= i < |at| ==> at[i] < |kept|
  {
    forall i | 0 <= i < |at| ensures at[i] < |kept| {
      assert LastAt(kept, at[i], urls[i]);
    }
  }

  lemma NothingIsListed(kept: seq<string>, urls: seq<string>, at: seq<nat>)
    requires LastEntries(kept, urls, at)
    ensures "" !in urls
  {
    forall i | 0 <= i < |urls| ensures urls[i] != "" {
      assert LastAt(kept, at[i], urls[i]);
    }
  }

  /** The list shown is the one that would be stored, whether or not it could be written; without a URL it is the one
      there was. */
  lemma WhatAVisitShows(stored: seq<string>, raw: string)
    ensures var (shown, after) := Recorded(stored, Visit(raw, true));
            after == shown && Recorded(stored, Visit(raw, false)) == (shown, stored) &&
            if Clean(raw) == "" then shown == stored else shown == ShownAfter(stored, Clean(raw))
  {
  }

  /** The visited URL, and then the others in their order, three at most. */
  function ShownAfter(stored: seq<string>, url: string): seq<string> {
    var all := [url] + Without(stored, url);
    if |all| <= 3 then all else all[..3]
  }

  /** What is stored is the three URLs kept latest, the latest first, or all of them if there are fewer. */
  lemma StoredIsTheLatestThree(visits: seq<Visit>) returns (at: seq<nat>)
    ensures LastEntries(Kept(visits), Stored(visits), at) && Decreasing(at) && |Stored(visits)| <= 3
    ensures |Stored(visits)| < 3 ==> AllListed(Kept(visits), Stored(visits))
    ensures forall k, i :: 0 <= k < |Kept(visits)| && 0 <= i < |at| ==>
              (Kept(visits)[k] == "" || Kept(visits)[k] in Stored(visits) || k < at[i])
  {
    EverythingIsListed(visits);
    StoredIsTopOfEverything(visits);
    at := LatestThree(Kept(visits), Stored(visits));
  }

  lemma LatestThree(kept: seq<string>, stored: seq<string>) returns (at: seq<nat>)
    requires stored == Top(ListOf(kept), 3)
    ensures LastEntries(kept, stored, at) && Decreasing(at) && |stored| <= 3
    ensures |stored| < 3 ==> AllListed(kept, stored)
    ensures forall k, i :: 0 <= k < |kept| && 0 <= i < |at| ==> (kept[k] == "" || kept[k] in stored || k < at[i])
  {
    var all := LatestFirst(kept);
    at := all[..|stored|];
    TopIsLatest(kept, ListOf(kept), all, |stored|);
  }

  /** The front of the list is later than whatever is not on it. */
  lemma TopIsLatest(kept: seq<string>, urls: seq<string>, at: seq<nat>, n: nat)
    requires LastEntries(kept, urls, at) && Decreasing(at) && AllListed(kept, urls) && n <= |urls|
    ensures LastEntries(kept, urls[..n], at[..n]) && Decreasing(at[..n])
    ensures forall k, i :: 0 <= k < |kept| && 0 <= i < n ==>
              (kept[k] == "" || kept[k] in urls[..n] || k < at[i])
  {
    forall k, i | 0 <= k < |kept| && 0 <= i < n && kept[k] != "" && kept[k] !in urls[..n] ensures k < at[i] {
      var j :| 0 <= j < |urls| && urls[j] == kept[k];
      InFront(urls, n, j);
      assert LastAt(kept, at[j], urls[j]);
    }
  }

  lemma InFront(urls: seq<string>, n: nat, j: nat)
    requires j < |urls| && n <= |urls|
    ensures j < n ==> urls[j] in urls[..n]
  {
    if j < n {
      assert urls[..n][j] == urls[j];
    }
  }
}
