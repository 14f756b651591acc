/**
 * The six `sort` values `GET /countries` recognises (src/db.rs:143-157) and
 * the order each one puts rows in.  A missing GDP compares below every
 * present one, as NULL does in MySQL; names compare by character code.
 */
module Ordering {
  import opened Wrappers
  import opened Models

  datatype SortKey = GdpDesc | GdpAsc | PopDesc | PopAsc | NameAsc | NameDesc

  /** The query-string spelling of each key. */
  function SortParam(key: SortKey): string
  {
    match key
    case GdpDesc => "gdp_desc"
    case GdpAsc => "gdp_asc"
    case PopDesc => "pop_desc"
    case PopAsc => "pop_asc"
    case NameAsc => "name_asc"
    case NameDesc => "name_desc"
  }

  /** The `match sort.as_str()`: any other spelling yields no ordering. */
  function ParseSort(s: string): (key: Option<SortKey>)
    ensures key.Some? ==> SortParam(key.value) == s
  {
    match s
    case "gdp_desc" => Some(GdpDesc)
    case "gdp_asc" => Some(GdpAsc)
    case "pop_desc" => Some(PopDesc)
    case "pop_asc" => Some(PopAsc)
    case "name_asc" => Some(NameAsc)
    case "name_desc" => Some(NameDesc)
    case _ => None
  }

  /** Every key is recognised under its own spelling, so the two agree both ways. */
  lemma ParseSortRoundTrip(key: SortKey, s: string)
    ensures ParseSort(SortParam(key)) == Some(key)
    ensures ParseSort(s) == Some(key) <==> s == SortParam(key)
  {
  }

  /** `a <= b` on nullable decimals, NULL lowest. */
  predicate GdpAtMost(a: Option<real>, b: Option<real>)
  {
    a.None? || (b.Some? && a.value <= b.value)
  }

  /** Lexicographic `a <= b` on character codes. */
  predicate NameAtMost(a: string, b: string)
  {
    if a == [] then true
    else if b == [] then false
    else if a[0] != b[0] then a[0] < b[0]
    else NameAtMost(a[1..], b[1..])
  }

  lemma {:induction false} NameAtMostTotal(a: string, b: string)
    ensures NameAtMost(a, b) || NameAtMost(b, a)
  {
    if a != [] && b != [] && a[0] == b[0] {
      NameAtMostTotal(a[1..], b[1..]);
    }
  }

  lemma {:induction false} NameAtMostTransitive(a: string, b: string, c: string)
    requires NameAtMost(a, b) && NameAtMost(b, c)
    ensures NameAtMost(a, c)
  {
    if a != [] && b != [] && c != [] && a[0] == b[0] && b[0] == c[0] {
      NameAtMostTransitive(a[1..], b[1..], c[1..]);
    }
  }

  /** `a` may stand before `b` in a listing ordered by `key`. */
  predicate Precedes(key: SortKey, a: Country, b: Country)
  {
    match key
    case GdpDesc => GdpAtMost(b.estimatedGdp, a.estimatedGdp)
    case GdpAsc => GdpAtMost(a.estimatedGdp, b.estimatedGdp)
    case PopDesc => b.population <= a.population
    case PopAsc => a.population <= b.population
    case NameAsc => NameAtMost(a.name, b.name)
    case NameDesc => NameAtMost(b.name, a.name)
  }

  lemma PrecedesTotal(key: SortKey, a: Country, b: Country)
    ensures Precedes(key, a, b) || Precedes(key, b, a)
  {
    if key.NameAsc? || key.NameDesc? {
      NameAtMostTotal(a.name, b.name);
    }
  }

  lemma PrecedesTransitive(key: SortKey, a: Country, b: Country, c: Country)
    requires Precedes(key, a, b) && Precedes(key, b, c)
    ensures Precedes(key, a, c)
  {
    match key
    case NameAsc => NameAtMostTransitive(a.name, b.name, c.name);
    case NameDesc => NameAtMostTransitive(c.name, b.name, a.name);
    case _ =>
  }

  /** `ORDER BY` holds: every row may stand before every later one. */
  predicate SortedBy(key: SortKey, s: seq<Country>)
  {
    forall i, j :: 0 <= i < j < |s| ==> Precedes(key, s[i], s[j])
  }

  /** Places `x` before the first row it may precede. */
  function Insert(key: SortKey, x: Country, s: seq<Country>): (r: seq<Country>)
    requires SortedBy(key, s)
    ensures SortedBy(key, r)
    ensures multiset(r) == multiset(s) + multiset{x}
  {
    if s == [] then [x]
    else if Precedes(key, x, s[0]) then
      assert forall j :: 0 <= j < |s| ==> Precedes(key, x, s[j]) by {
        forall j | 0 <= j < |s| ensures Precedes(key, x, s[j]) {
          if j > 0 { PrecedesTransitive(key, x, s[0], s[j]); }
        }
      }
      [x] + s
    else
      var rest := Insert(key, x, s[1..]);
      assert s == [s[0]] + s[1..];
      PrecedesTotal(key, x, s[0]);
      assert forall j :: 0 <= j < |rest| ==> Precedes(key, s[0], rest[j]) by {
        forall j | 0 <= j < |rest| ensures Precedes(key, s[0], rest[j]) {
          assert rest[j] in multiset(rest);
          if rest[j] != x {
            assert rest[j] in multiset(s[1..]);
            var k :| 0 <= k < |s[1..]| && s[1..][k] == rest[j];
            assert s[k + 1] == rest[j];
          }
        }
      }
      [s[0]] + rest
  }

  /** Insertion sort: the result is ordered by `key` and a permutation of `s`. */
  function SortBy(key: SortKey, s: seq<Country>): (r: seq<Country>)
    ensures SortedBy(key, r)
    ensures multiset(r) == multiset(s)
  {
    if s == [] then []
    else
      assert s == [s[0]] + s[1..];
      Insert(key, s[0], SortBy(key, s[1..]))
  }
}
