/** The capped list of recent server URLs, most recent first. */
module UrlHistory {
  import opened Trimming

  const URL_HISTORY_MAX: nat := 3

  function Clean(raw: string): string {
    TrimEnd(IsSlash, Trim(IsWhite, raw))
  }

  function Without(s: seq<string>, u: string): seq<string> {
    if s == [] then []
    else if s[0] == u then Without(s[1..], u)
    else [s[0]] + Without(s[1..], u)
  }

  function Top(s: seq<string>, k: nat): seq<string> {
    if |s| <= k then s else s[..k]
  }

  /** `u` moves to the front. */
  function Moved(s: seq<string>, u: string): seq<string> {
    if u == "" then s else [u] + Without(s, u)
  }

  /** A visit, and whether the new list could be written to disk. */
  datatype Visit = Visit(raw: string, written: bool)

  /** The list shown after a visit, and the list kept. */
  function Recorded(stored: seq<string>, v: Visit): (seq<string>, seq<string>) {
    var shown := if Clean(v.raw) == "" then stored else Top(Moved(stored, Clean(v.raw)), URL_HISTORY_MAX);
    (shown, if v.written then shown else stored)
  }

  class History {
    var stored: seq<string>

    constructor ()
      ensures stored == []
    {
      stored := [];
    }

    /** `record_url_history`: the list returned, and the list kept if writing it works. */
    method Record(v: Visit) returns (shown: seq<string>)
      modifies this
      ensures (shown, stored) == Recorded(old(stored), v)
    {
      var url := Clean(v.raw);
      if url == "" {
        return stored;
      }
      var history := Without(stored, url);
      history := [url] + history;
      if |history| > URL_HISTORY_MAX {
        history := history[..URL_HISTORY_MAX];
      }
      if v.written {
        stored := history;
      }
      shown := history;
    }
  }

  // ---- Runs of visits ----------------------------------------------------------------------------------------

  /** What `Record` keeps, visit after visit. */
  function Stored(visits: seq<Visit>): seq<string> {
    if visits == [] then [] else Recorded(Stored(visits[..|visits| - 1]), visits[|visits| - 1]).1
  }

  /** Every distinct URL ever kept, most recent first. */
  function Everything(visits: seq<Visit>): seq<string> {
    if visits == [] then []
    else
      var s, v := Everything(visits[..|visits| - 1]), visits[|visits| - 1];
      if !v.written then s else Moved(s, Clean(v.raw))
  }

  ghost predicate Distinct(s: seq<string>) {
    forall i, j :: 0 <= i < j < |s| ==> s[i] != s[j]
  }

  lemma {:induction false} WithoutKeeps(s: seq<string>, u: string)
    ensures u !in Without(s, u)
    ensures forall x :: x in Without(s, u) <==> x in s && x != u
    ensures Distinct(s) ==> Distinct(Without(s, u))
    ensures u !in s ==> Without(s, u) == s
  {
    if s != [] {
      assert s == [s[0]] + s[1..];
      WithoutKeeps(s[1..], u);
      if Distinct(s) {
        assert s[0] !in s[1..];
      }
    }
  }

  lemma {:induction false} EverythingIsDistinct(visits: seq<Visit>)
    ensures Distinct(Everything(visits))
  {
    if visits != [] {
      var init := visits[..|visits| - 1];
      EverythingIsDistinct(init);
      WithoutKeeps(Everything(init), Clean(visits[|visits| - 1].raw));
    }
  }

  lemma WithoutHead(s: seq<string>)
    requires Distinct(s) && s != []
    ensures Without(s, s[0]) == s[1..]
  {
    forall i | 0 <= i < |s[1..]| ensures s[1..][i] != s[0] {
      assert s[1..][i] == s[i + 1];
    }
    WithoutKeeps(s[1..], s[0]);
  }

  lemma TopOfCons(u: string, s: seq<string>, k: nat)
    requires k > 0
    ensures Top([u] + s, k) == [u] + Top(s, k - 1)
  {
  }

  lemma TopIsDistinct(s: seq<string>, k: nat)
    requires Distinct(s)
    ensures Distinct(Top(s, k)) && (s != [] ==> Distinct(s[1..]))
  {
  }

  /** Cutting the tail off first loses nothing that the front of the result needs. */
  lemma {:induction false} TopOfWithout(s: seq<string>, u: string, k: nat)
    requires Distinct(s) && k > 0
    ensures Top(Without(s, u), k - 1) == Top(Without(Top(s, k), u), k - 1)
  {
    if |s| > k {
      TopIsDistinct(s, k);
      if s[0] == u {
        HeadIsMoved(s, k);
      } else if k > 1 {
        TopOfWithout(s[1..], u, k - 1);
        StepOfWithout(s[0], s[1..], u, k);
        assert s == [s[0]] + s[1..];
      }
    }
  }

  lemma HeadIsMoved(s: seq<string>, k: nat)
    requires Distinct(s) && 0 < k < |s|
    ensures Top(Without(s, s[0]), k - 1) == Top(Without(Top(s, k), s[0]), k - 1)
  {
    TopIsDistinct(s, k);
    WithoutHead(s);
    WithoutHead(s[..k]);
    assert s[1..][..k - 1] == s[..k][1..];
  }

  lemma WithoutOfCons(x: string, s: seq<string>, u: string)
    requires x != u
    ensures Without([x] + s, u) == [x] + Without(s, u)
  {
    assert ([x] + s)[1..] == s;
  }

  lemma StepOfWithout(x: string, s: seq<string>, u: string, k: nat)
    requires x != u && k > 1
    requires Top(Without(s, u), k - 2) == Top(Without(Top(s, k - 1), u), k - 2)
    ensures Top(Without([x] + s, u), k - 1) == Top(Without(Top([x] + s, k), u), k - 1)
  {
    TopOfCons(x, s, k);
    WithoutOfCons(x, s, u);
    WithoutOfCons(x, Top(s, k - 1), u);
    TopOfCons(x, Without(s, u), k - 1);
    TopOfCons(x, Without(Top(s, k - 1), u), k - 1);
  }

  /** After any run of visits, what is stored is the first three of everything, without repeats: forgetting the
      rest at each visit never matters later. */
  lemma {:induction false} StoredIsTopOfEverything(visits: seq<Visit>)
    ensures Stored(visits) == Top(Everything(visits), URL_HISTORY_MAX) && Distinct(Stored(visits))
  {
    EverythingIsDistinct(visits);
    if visits != [] {
      var init, v := visits[..|visits| - 1], visits[|visits| - 1];
      StoredIsTopOfEverything(init);
      EverythingIsDistinct(init);
      if v.written && Clean(v.raw) != "" {
        TopOfMoved(Everything(init), Clean(v.raw), URL_HISTORY_MAX);
      }
    }
    TopIsDistinct(Everything(visits), URL_HISTORY_MAX);
  }

  lemma TopOfMoved(s: seq<string>, u: string, k: nat)
    requires Distinct(s) && k > 0
    ensures Top(Moved(Top(s, k), u), k) == Top(Moved(s, u), k)
  {
    if u != "" {
      TopOfWithout(s, u, k);
      TopOfCons(u, Without(Top(s, k), u), k);
      TopOfCons(u, Without(s, u), k);
    }
  }
}
