/**
 * URLs as `parse_url` splits them, query strings as `parse_str` reads them,
 * and the rebuild-to-string the normalisers and the crawler use.
 *
 * The model starts from the already-split record: parsing URL text and the
 * percent-encoding of `http_build_query` are not modelled (keys and values are
 * written back as they are).
 */
module Urls {
  import opened Wrappers
  import opened Text

  /** One `key=value` pair of a query string. */
  datatype Param = Param(key: string, value: string)

  /**
   * A URL split into components; an absent component is `None`. The query
   * is the raw list of pairs in the order they appear, duplicates included.
   */
  datatype Url = Url(
    scheme: Option<string>,
    host: Option<string>,
    port: Option<nat>,
    path: Option<string>,
    query: Option<seq<Param>>,
    fragment: Option<string>)

  // ---------------------------------------------------------------------------
  // Rebuilding the string
  // ---------------------------------------------------------------------------

  function SchemePart(u: Url): string {
    if u.scheme.Some? then u.scheme.value + "://" else ""
  }

  function HostPart(u: Url): string {
    u.host.GetOr("")
  }

  function PortPart(u: Url): string {
    if u.port.Some? then ":" + NatToString(u.port.value) else ""
  }

  function PathPart(u: Url): string {
    u.path.GetOr("")
  }

  function FragmentPart(u: Url): string {
    if u.fragment.Some? then "#" + u.fragment.value else ""
  }

  /** `scheme://host:port`, each piece only when present. */
  function Origin(u: Url): string {
    SchemePart(u) + HostPart(u) + PortPart(u)
  }

  /** `key=value` pairs joined by `&` (the query text, and `http_build_query` without encoding). */
  function QueryString(ps: seq<Param>): string {
    if |ps| == 0 then ""
    else if |ps| == 1 then ps[0].key + "=" + ps[0].value
    else ps[0].key + "=" + ps[0].value + "&" + QueryString(ps[1..])
  }

  /**
   * The URL text: what `(string) $url` gives for a URL with a scheme and a
   * host and these other components.
   */
  function Render(u: Url): string {
    Origin(u) + PathPart(u)
    + (if u.query.Some? then "?" + QueryString(u.query.value) else "")
    + FragmentPart(u)
  }

  // ---------------------------------------------------------------------------
  // Query parameters as a PHP array
  // ---------------------------------------------------------------------------

  /** The keys of `ps`, in order. */
  function Keys(ps: seq<Param>): (r: seq<string>)
    ensures |r| == |ps|
    ensures forall i :: 0 <= i < |ps| ==> r[i] == ps[i].key
  {
    if |ps| == 0 then [] else [ps[0].key] + Keys(ps[1..])
  }

  /** `k` is a key of some pair of `ps`. */
  predicate HasKey(ps: seq<Param>, k: string) {
    k in Keys(ps)
  }

  lemma KeysConcat(a: seq<Param>, b: seq<Param>)
    ensures Keys(a + b) == Keys(a) + Keys(b)
  {
  }

  /** No key occurs twice: the shape of a PHP array. */
  predicate UniqueKeys(ps: seq<Param>) {
    forall i, j :: 0 <= i < j < |ps| ==> ps[i].key != ps[j].key
  }

  lemma UniqueCons(p: Param, ps: seq<Param>)
    ensures UniqueKeys([p] + ps) <==> !HasKey(ps, p.key) && UniqueKeys(ps)
  {
    var r := [p] + ps;
    if UniqueKeys(r) {
      forall i, j | 0 <= i < j < |ps| ensures ps[i].key != ps[j].key {
        assert ps[i] == r[i + 1] && ps[j] == r[j + 1];
      }
      forall i | 0 <= i < |ps| ensures Keys(ps)[i] != p.key {
        assert ps[i] == r[i + 1] && r[0] == p;
        assert r[0].key != r[i + 1].key;
      }
    }
    if !HasKey(ps, p.key) && UniqueKeys(ps) {
      forall i, j | 0 <= i < j < |r| ensures r[i].key != r[j].key {
        if i == 0 {
          assert Keys(ps)[j - 1] == r[j].key;
        } else {
          assert r[i] == ps[i - 1] && r[j] == ps[j - 1];
        }
      }
    }
  }

  /** The value of the first pair with key `k`. */
  function Lookup(ps: seq<Param>, k: string): (r: Option<string>)
    ensures r.Some? <==> HasKey(ps, k)
  {
    if |ps| == 0 then None
    else if ps[0].key == k then Some(ps[0].value)
    else Lookup(ps[1..], k)
  }

  /** The value of the last pair with key `k`: the value PHP keeps for a repeated key. */
  function LastValue(q: seq<Param>, k: string): Option<string> {
    if |q| == 0 then None
    else if q[|q| - 1].key == k then Some(q[|q| - 1].value)
    else LastValue(q[..|q| - 1], k)
  }

  /**
   * `$array[$p.key] = $p.value` on an array with unique keys: an existing key
   * keeps its position and takes the new value; a new key goes to the end.
   */
  function Assign(ps: seq<Param>, p: Param): (r: seq<Param>)
    ensures |r| == |ps| || |r| == |ps| + 1
    ensures forall k :: HasKey(r, k) <==> HasKey(ps, k) || k == p.key
    decreases |ps|
  {
    if |ps| == 0 then [p]
    else if ps[0].key == p.key then [p] + ps[1..]
    else
      var a := Assign(ps[1..], p);
      var r := [ps[0]] + a;
      assert Keys(r) == [ps[0].key] + Keys(a);
      assert Keys(ps) == [ps[0].key] + Keys(ps[1..]);
      assert forall k :: HasKey(r, k) <==> HasKey(ps, k) || k == p.key by {
        forall k ensures HasKey(r, k) <==> HasKey(ps, k) || k == p.key {
          assert HasKey(a, k) <==> HasKey(ps[1..], k) || k == p.key;
        }
      }
      r
  }

  lemma {:induction false} AssignUnique(ps: seq<Param>, p: Param)
    requires UniqueKeys(ps)
    ensures UniqueKeys(Assign(ps, p))
    decreases |ps|
  {
    if |ps| > 0 {
      UniqueCons(ps[0], ps[1..]);
      assert ps == [ps[0]] + ps[1..];
      if ps[0].key != p.key {
        AssignUnique(ps[1..], p);
        UniqueCons(ps[0], Assign(ps[1..], p));
      } else {
        UniqueCons(p, ps[1..]);
      }
    }
  }

  lemma {:induction false} AssignLookup(ps: seq<Param>, p: Param, k: string)
    ensures Lookup(Assign(ps, p), k) == if k == p.key then Some(p.value) else Lookup(ps, k)
    decreases |ps|
  {
    if |ps| > 0 && ps[0].key != p.key {
      AssignLookup(ps[1..], p, k);
      assert Assign(ps, p)[1..] == Assign(ps[1..], p);
    }
  }

  /** Assigning a new key appends it. */
  lemma {:induction false} AssignFresh(ps: seq<Param>, p: Param)
    requires !HasKey(ps, p.key)
    ensures Assign(ps, p) == ps + [p]
    decreases |ps|
  {
    if |ps| > 0 {
      AssignFresh(ps[1..], p);
      assert ps == [ps[0]] + ps[1..];
    }
  }

  /**
   * `parse_str`: the pairs of a query string read into a PHP array. Each key
   * appears once, at the position of its first occurrence, holding the value
   * of its last occurrence.
   */
  function ParseStr(q: seq<Param>): (r: seq<Param>)
    ensures UniqueKeys(r)
    ensures forall k :: HasKey(r, k) <==> HasKey(q, k)
    ensures forall k :: Lookup(r, k) == LastValue(q, k)
    decreases |q|
  {
    if |q| == 0 then []
    else
      var init := q[..|q| - 1];
      var prev := ParseStr(init);
      var r := Assign(prev, q[|q| - 1]);
      AssignUnique(prev, q[|q| - 1]);
      assert q == init + [q[|q| - 1]];
      KeysConcat(init, [q[|q| - 1]]);
      assert forall k :: Lookup(r, k) == LastValue(q, k) by {
        forall k ensures Lookup(r, k) == LastValue(q, k) {
          AssignLookup(prev, q[|q| - 1], k);
        }
      }
      r
  }

  /** A query whose keys are already unique reads back unchanged. */
  lemma {:induction false} ParseStrUnique(q: seq<Param>)
    requires UniqueKeys(q)
    ensures ParseStr(q) == q
    decreases |q|
  {
    if |q| > 0 {
      var init := q[..|q| - 1];
      ParseStrUnique(init);
      assert !HasKey(init, q[|q| - 1].key);
      AssignFresh(init, q[|q| - 1]);
      assert init + [q[|q| - 1]] == q;
    }
  }

  // ---------------------------------------------------------------------------
  // Tracking parameters
  // ---------------------------------------------------------------------------

  /** The eleven keys both normalisers strip, compared case-sensitively. */
  const TrackingKeys: set<string> := {
    "utm_source", "utm_medium", "utm_campaign",
    "utm_term", "utm_content", "gclid", "fbclid",
    "sessionid", "PHPSESSID", "_ga", "ref"
  }

  /** The pairs of `ps` whose key is not a tracking key, in their original order. */
  function DropTracking(ps: seq<Param>): (r: seq<Param>)
    ensures |r| <= |ps|
    ensures forall i :: 0 <= i < |r| ==> r[i].key !in TrackingKeys
    ensures forall i :: 0 <= i < |r| ==> r[i] in ps
    ensures forall i :: 0 <= i < |ps| && ps[i].key !in TrackingKeys ==> ps[i] in r
    decreases |ps|
  {
    if |ps| == 0 then []
    else
      var rest := DropTracking(ps[1..]);
      assert forall i :: 1 <= i < |ps| ==> ps[i] == ps[1..][i - 1];
      if ps[0].key in TrackingKeys then rest else [ps[0]] + rest
  }

  /** Dropping distributes over concatenation, so relative order is kept. */
  lemma {:induction false} DropTrackingConcat(a: seq<Param>, b: seq<Param>)
    ensures DropTracking(a + b) == DropTracking(a) + DropTracking(b)
    decreases |a|
  {
    if |a| == 0 {
      assert a + b == b;
    } else {
      assert (a + b)[1..] == a[1..] + b;
      DropTrackingConcat(a[1..], b);
    }
  }

  /** A list without tracking keys is left as it is. */
  lemma {:induction false} DropTrackingNoop(ps: seq<Param>)
    requires forall i :: 0 <= i < |ps| ==> ps[i].key !in TrackingKeys
    ensures DropTracking(ps) == ps
    decreases |ps|
  {
    if |ps| > 0 {
      DropTrackingNoop(ps[1..]);
    }
  }

  lemma {:induction false} DropTrackingHasKey(ps: seq<Param>, k: string)
    ensures HasKey(DropTracking(ps), k) <==> HasKey(ps, k) && k !in TrackingKeys
    decreases |ps|
  {
    if |ps| > 0 {
      DropTrackingHasKey(ps[1..], k);
      assert Keys(ps) == [ps[0].key] + Keys(ps[1..]);
      if ps[0].key !in TrackingKeys {
        assert Keys(DropTracking(ps)) == [ps[0].key] + Keys(DropTracking(ps[1..]));
      }
    }
  }

  lemma {:induction false} DropTrackingUnique(ps: seq<Param>)
    requires UniqueKeys(ps)
    ensures UniqueKeys(DropTracking(ps))
    decreases |ps|
  {
    if |ps| > 0 {
      UniqueCons(ps[0], ps[1..]);
      assert ps == [ps[0]] + ps[1..];
      DropTrackingUnique(ps[1..]);
      if ps[0].key !in TrackingKeys {
        DropTrackingHasKey(ps[1..], ps[0].key);
        UniqueCons(ps[0], DropTracking(ps[1..]));
      }
    }
  }

  lemma {:induction false} DropTrackingAssignTracked(ps: seq<Param>, p: Param)
    requires p.key in TrackingKeys
    ensures DropTracking(Assign(ps, p)) == DropTracking(ps)
    decreases |ps|
  {
    if |ps| > 0 && ps[0].key != p.key {
      DropTrackingAssignTracked(ps[1..], p);
      assert Assign(ps, p) == [ps[0]] + Assign(ps[1..], p);
      assert ([ps[0]] + Assign(ps[1..], p))[1..] == Assign(ps[1..], p);
    } else if |ps| > 0 {
      assert Assign(ps, p)[1..] == ps[1..];
    }
  }

  lemma {:induction false} DropTrackingAssignKept(ps: seq<Param>, p: Param)
    requires p.key !in TrackingKeys
    ensures DropTracking(Assign(ps, p)) == Assign(DropTracking(ps), p)
    decreases |ps|
  {
    if |ps| == 0 {
    } else if ps[0].key == p.key {
      assert Assign(ps, p)[1..] == ps[1..];
    } else {
      DropTrackingAssignKept(ps[1..], p);
      assert Assign(ps, p)[1..] == Assign(ps[1..], p);
      if ps[0].key !in TrackingKeys {
        var d := DropTracking(ps);
        assert d == [ps[0]] + DropTracking(ps[1..]);
        assert d[1..] == DropTracking(ps[1..]);
      }
    }
  }

  /**
   * Removing tracking keys after reading a query is the same as reading the
   * query with its tracking pairs removed.
   */
  lemma {:induction false} DropTrackingParseStr(q: seq<Param>)
    ensures DropTracking(ParseStr(q)) == ParseStr(DropTracking(q))
    decreases |q|
  {
    if |q| > 0 {
      var init := q[..|q| - 1];
      var last := q[|q| - 1];
      DropTrackingParseStr(init);
      assert q == init + [last];
      ParseStrSnoc(init, last);
      DropTrackingSnoc(init, last);
      if last.key in TrackingKeys {
        DropTrackingAssignTracked(ParseStr(init), last);
      } else {
        DropTrackingAssignKept(ParseStr(init), last);
        ParseStrSnoc(DropTracking(init), last);
      }
    }
  }

  lemma ParseStrSnoc(a: seq<Param>, p: Param)
    ensures ParseStr(a + [p]) == Assign(ParseStr(a), p)
  {
    assert (a + [p])[..|a|] == a;
  }

  lemma DropTrackingSnoc(a: seq<Param>, p: Param)
    ensures DropTracking(a + [p]) == if p.key in TrackingKeys then DropTracking(a) else DropTracking(a) + [p]
  {
    DropTrackingConcat(a, [p]);
    assert DropTracking([p]) == (if p.key in TrackingKeys then [] else [p]) + DropTracking([p][1..]);
  }
}
