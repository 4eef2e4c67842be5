/**
 * Sprite selection (index.js `getPokemonSprites`). The catalog fetch, the detail
 * fetch and the image preload are network operations; the model receives their
 * results as data: one `Candidate` per catalog entry, carrying what resolving it
 * would produce.
 */
module Sprites {
  import Shuffle

  /**
   * What resolving one candidate produces: either the detail fetch or its JSON
   * decoding throws, or it yields an official-artwork URL (the empty string
   * standing for a missing, null or empty URL) and whether preloading that image
   * succeeds.
   */
  datatype Outcome = FetchFailed | Artwork(url: string, loads: bool)

  datatype Candidate = Candidate(name: string, outcome: Outcome)

  /** A candidate whose artwork URL is present and whose image loads is accepted. */
  predicate Usable(c: Candidate) {
    c.outcome.Artwork? && c.outcome.url != "" && c.outcome.loads
  }

  /**
   * The candidates the loop accepts, in order, when at most `n` more are wanted
   * and the names in `picked` have already been tried.
   */
  function Accepted(cands: seq<Candidate>, n: int, picked: set<string>): (r: seq<Candidate>)
    ensures |r| <= if n < 0 then 0 else n
    ensures forall k :: 0 <= k < |r| ==> Usable(r[k]) && r[k].name !in picked
  {
    if cands == [] || n <= 0 then []
    else if cands[0].name in picked then Accepted(cands[1..], n, picked)
    else if Usable(cands[0]) then [cands[0]] + Accepted(cands[1..], n - 1, picked + {cands[0].name})
    else Accepted(cands[1..], n, picked + {cands[0].name})
  }

  /** The same selection without the cut-off: every candidate accepted when enough are never reached. */
  function Eligible(cands: seq<Candidate>, picked: set<string>): (r: seq<Candidate>)
    ensures forall k :: 0 <= k < |r| ==> Usable(r[k]) && r[k].name !in picked
  {
    if cands == [] then []
    else if cands[0].name in picked then Eligible(cands[1..], picked)
    else if Usable(cands[0]) then [cands[0]] + Eligible(cands[1..], picked + {cands[0].name})
    else Eligible(cands[1..], picked + {cands[0].name})
  }

  /** The URLs of accepted candidates. */
  function Urls(accepted: seq<Candidate>): (r: seq<string>)
    requires forall k :: 0 <= k < |accepted| ==> Usable(accepted[k])
    ensures |r| == |accepted|
    ensures forall k :: 0 <= k < |r| ==> Usable(accepted[k]) && r[k] == accepted[k].outcome.url
  {
    if accepted == [] then []
    else
      assert Usable(accepted[0]);
      [accepted[0].outcome.url] + Urls(accepted[1..])
  }

  /** The position of the first candidate named `name`, or `|cands|` when there is none. */
  function IndexOfName(cands: seq<Candidate>, name: string): (j: nat)
    ensures j <= |cands|
    ensures j < |cands| ==> cands[j].name == name
    ensures forall i :: 0 <= i < j ==> cands[i].name != name
  {
    if cands == [] then 0
    else if cands[0].name == name then 0
    else 1 + IndexOfName(cands[1..], name)
  }

  function Min(n: int, len: nat): nat {
    if n <= 0 then 0 else if n < len then n else len
  }

  /** Stopping once `n` URLs are collected keeps exactly the first `n` eligible candidates. */
  lemma {:induction false} AcceptedIsPrefixOfEligible(cands: seq<Candidate>, n: int, picked: set<string>)
    ensures var e := Eligible(cands, picked);
            Accepted(cands, n, picked) == e[..Min(n, |e|)]
  {
    if cands != [] && n > 0 {
      var c, rest := cands[0], cands[1..];
      if c.name in picked {
        AcceptedIsPrefixOfEligible(rest, n, picked);
      } else if Usable(c) {
        AcceptedIsPrefixOfEligible(rest, n - 1, picked + {c.name});
        var e' := Eligible(rest, picked + {c.name});
        assert ([c] + e')[..Min(n, 1 + |e'|)] == [c] + e'[..Min(n - 1, |e'|)];
      } else {
        AcceptedIsPrefixOfEligible(rest, n, picked + {c.name});
      }
    }
  }

  /**
   * Every eligible candidate is the first candidate of its name: a name is marked
   * as tried when its first candidate is reached, whether or not that candidate is
   * accepted, so later candidates of the same name are never looked at.
   */
  lemma {:induction false} EligibleIsFirstOfItsName(cands: seq<Candidate>, picked: set<string>, x: Candidate)
    requires x in Eligible(cands, picked)
    ensures IndexOfName(cands, x.name) < |cands|
    ensures cands[IndexOfName(cands, x.name)] == x
  {
    var c, rest := cands[0], cands[1..];
    if c.name in picked {
      EligibleIsFirstOfItsName(rest, picked, x);
    } else if Usable(c) && x == c {
    } else {
      var picked' := picked + {c.name};
      assert x in Eligible(rest, picked');
      EligibleIsFirstOfItsName(rest, picked', x);
    }
  }

  /** Conversely, the first candidate of an untried name is eligible when it is usable. */
  lemma {:induction false} FirstOfNameIsEligible(cands: seq<Candidate>, picked: set<string>, j: nat)
    requires j < |cands| && IndexOfName(cands, cands[j].name) == j
    requires cands[j].name !in picked && Usable(cands[j])
    ensures cands[j] in Eligible(cands, picked)
  {
    if j > 0 {
      var c, rest := cands[0], cands[1..];
      assert rest[j - 1] == cands[j];
      var picked' := if c.name in picked then picked else picked + {c.name};
      FirstOfNameIsEligible(rest, picked', j - 1);
    }
  }

  predicate DistinctNames(s: seq<Candidate>) {
    forall i, j :: 0 <= i < j < |s| ==> s[i].name != s[j].name
  }

  /** No two accepted candidates share a name. */
  lemma {:induction false} EligibleNamesDistinct(cands: seq<Candidate>, picked: set<string>)
    ensures DistinctNames(Eligible(cands, picked))
  {
    if cands != [] {
      var c, rest := cands[0], cands[1..];
      if c.name in picked {
        EligibleNamesDistinct(rest, picked);
        assert Eligible(cands, picked) == Eligible(rest, picked);
      } else {
        EligibleNamesDistinct(rest, picked + {c.name});
        if Usable(c) {
          var e' := Eligible(rest, picked + {c.name});
          var e := Eligible(cands, picked);
          assert e == [c] + e';
          assert DistinctNames(e');
          forall i, j | 0 <= i < j < |e|
            ensures e[i].name != e[j].name
          {
            assert e[j] == e'[j - 1];
            if i > 0 {
              assert e[i] == e'[i - 1];
            }
          }
        }
      }
    }
  }

  /**
   * index.js `getPokemonSprites(n)`: shuffle the catalog, then walk it, stopping
   * once `n` URLs are collected, skipping names already tried and every candidate
   * whose resolution fails. Returns the URLs and, as a ghost, the shuffled order.
   */
  method GetPokemonSprites(catalog: seq<Candidate>, n: int, swaps: seq<nat>)
    returns (urls: seq<string>, ghost order: seq<Candidate>)
    ensures multiset(order) == multiset(catalog)
    ensures urls == Urls(Accepted(order, n, {}))
    ensures |urls| <= if n < 0 then 0 else n
    ensures forall u :: u in urls ==> exists c :: c in catalog && Usable(c) && c.outcome.url == u
  {
    var shuffled := Shuffle.Shuffled(catalog, swaps);
    order := shuffled;
    urls := [];
    var picked: set<string> := {};
    ghost var target := SelectUrls(shuffled, n, {});
    var i := 0;
    while i < |shuffled|
      invariant 0 <= i <= |shuffled|
      invariant urls + SelectUrls(shuffled[i..], n - |urls|, picked) == target
    {
      if |urls| >= n {
        break;
      }
      var p := shuffled[i];
      SelectUrlsAt(shuffled, i, n - |urls|, picked);
      if p.name in picked {
        i := i + 1;
        continue;
      }
      picked := picked + {p.name};
      match p.outcome {
        case FetchFailed =>
        case Artwork(url, loads) =>
          if url != "" && loads {
            ghost var rest := SelectUrls(shuffled[i + 1..], n - |urls| - 1, picked);
            assert urls + ([url] + rest) == (urls + [url]) + rest;
            urls := urls + [url];
          }
      }
      i := i + 1;
    }
    assert SelectUrls(shuffled[i..], n - |urls|, picked) == [] by {
      if i < |shuffled| {
        assert n - |urls| <= 0;
      }
    }
    SelectUrlsIsUrlsOfAccepted(shuffled, n, {});
    AcceptedUrlsFromCatalog(shuffled, catalog, n);
  }

  /** Every accepted candidate comes from the candidates walked. */
  lemma {:induction false} AcceptedFromCandidates(cands: seq<Candidate>, n: int, picked: set<string>)
    ensures forall x :: x in Accepted(cands, n, picked) ==> x in cands
  {
    if cands != [] && n > 0 {
      var c, rest := cands[0], cands[1..];
      if c.name in picked {
        AcceptedFromCandidates(rest, n, picked);
      } else if Usable(c) {
        AcceptedFromCandidates(rest, n - 1, picked + {c.name});
      } else {
        AcceptedFromCandidates(rest, n, picked + {c.name});
      }
    }
  }

  /**
   * Whatever order the catalog is walked in, at most `n` URLs come back, and each
   * is the present, loadable artwork URL of some catalog entry.
   */
  lemma AcceptedUrlsFromCatalog(order: seq<Candidate>, catalog: seq<Candidate>, n: int)
    requires multiset(order) == multiset(catalog)
    ensures var urls := Urls(Accepted(order, n, {}));
            && |urls| <= (if n < 0 then 0 else n)
            && forall u :: u in urls ==> exists c :: c in catalog && Usable(c) && c.outcome.url == u
  {
    var acc := Accepted(order, n, {});
    var urls := Urls(acc);
    AcceptedFromCandidates(order, n, {});
    forall u | u in urls
      ensures exists c :: c in catalog && Usable(c) && c.outcome.url == u
    {
      var k :| 0 <= k < |urls| && urls[k] == u;
      var c := acc[k];
      assert c in order;
      assert c in multiset(catalog);
    }
  }

  /**
   * The URLs the walk collects, computed directly: what the loop of
   * `GetPokemonSprites` keeps, and what its invariant is stated with (the
   * quantified contracts of `Accepted` and `Urls` are too costly to carry through
   * the loop); `SelectUrlsIsUrlsOfAccepted` ties it to them.
   */
  function SelectUrls(cands: seq<Candidate>, n: int, picked: set<string>): seq<string> {
    if cands == [] || n <= 0 then []
    else if cands[0].name in picked then SelectUrls(cands[1..], n, picked)
    else if Usable(cands[0]) then [cands[0].outcome.url] + SelectUrls(cands[1..], n - 1, picked + {cands[0].name})
    else SelectUrls(cands[1..], n, picked + {cands[0].name})
  }

  /** One step of the walk: how the URLs collected from position `i` on depend on the candidate there. */
  lemma SelectUrlsAt(s: seq<Candidate>, i: nat, m: int, picked: set<string>)
    requires i < |s| && m > 0
    ensures SelectUrls(s[i..], m, picked) ==
              if s[i].name in picked then SelectUrls(s[i + 1..], m, picked)
              else if Usable(s[i]) then [s[i].outcome.url] + SelectUrls(s[i + 1..], m - 1, picked + {s[i].name})
              else SelectUrls(s[i + 1..], m, picked + {s[i].name})
  {
    assert s[i..][0] == s[i];
    assert s[i..][1..] == s[i + 1..];
  }

  /** The collected URLs are those of the accepted candidates, in order. */
  lemma {:induction false} SelectUrlsIsUrlsOfAccepted(cands: seq<Candidate>, n: int, picked: set<string>)
    ensures SelectUrls(cands, n, picked) == Urls(Accepted(cands, n, picked))
  {
    if cands != [] && n > 0 {
      var c, rest := cands[0], cands[1..];
      if c.name in picked {
        SelectUrlsIsUrlsOfAccepted(rest, n, picked);
      } else if Usable(c) {
        SelectUrlsIsUrlsOfAccepted(rest, n - 1, picked + {c.name});
        var a := Accepted(rest, n - 1, picked + {c.name});
        assert ([c] + a)[1..] == a;
      } else {
        SelectUrlsIsUrlsOfAccepted(rest, n, picked + {c.name});
      }
    }
  }
}
