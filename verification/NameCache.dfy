/** Making names unique without creating reserved identifiers. */
module NameCaches {

  const COUNTER_RANGE: nat := 0x1_0000_0000

  // ---------------------------------------------------------------- decimal numbers

  function Digit(d: nat): char
    requires d < 10
  {
    "0123456789"[d]
  }

  function Decimal(n: nat): (s: string)
    ensures s != [] && '_' !in s
    ensures n < 10 <==> |s| == 1
  {
    if n < 10 then [Digit(n)] else Decimal(n / 10) + [Digit(n % 10)]
  }

  lemma DigitInjective(d: nat, e: nat)
    requires d < 10 && e < 10 && Digit(d) == Digit(e)
    ensures d == e
  {
  }

  lemma {:induction false} DecimalInjective(m: nat, n: nat)
    requires Decimal(m) == Decimal(n)
    ensures m == n
  {
    var s, t := Decimal(m), Decimal(n);
    if m < 10 && n < 10 {
      DigitInjective(m, n);
    } else if m >= 10 && n >= 10 {
      assert s[..|s| - 1] == Decimal(m / 10) && t[..|t| - 1] == Decimal(n / 10);
      assert s[|s| - 1] == Digit(m % 10) && t[|t| - 1] == Digit(n % 10);
      DigitInjective(m % 10, n % 10);
      DecimalInjective(m / 10, n / 10);
    }
  }

  /** The number that a string of decimal digits stands for. */
  ghost function Value(s: string): int {
    if s == "" then 0 else 10 * Value(s[..|s| - 1]) + (s[|s| - 1] as int - '0' as int)
  }

  lemma {:induction false} DecimalValue(n: nat)
    ensures Value(Decimal(n)) == n
    ensures forall k :: 0 <= k < |Decimal(n)| ==> '0' <= Decimal(n)[k] <= '9'
    ensures n > 0 ==> Decimal(n)[0] != '0'
  {
    var s := Decimal(n);
    if n < 10 {
      assert s[..|s| - 1] == "";
    } else {
      DecimalValue(n / 10);
      assert s[..|s| - 1] == Decimal(n / 10) && s[|s| - 1] == Digit(n % 10);
      assert n == 10 * (n / 10) + n % 10;
    }
  }

  // ---------------------------------------------------------------- candidate names

  /** What the numbers are tacked on to; the name is not empty. */
  function Stem(name: string): string
    requires name != ""
  {
    if name == "_" then "_0_" else if name[|name| - 1] == '_' then name else name + "_"
  }

  function Candidate(name: string, n: nat): string
    requires name != ""
  {
    Stem(name) + Decimal(n)
  }

  lemma CandidatesDiffer(name: string, m: nat, n: nat)
    requires name != "" && Candidate(name, m) == Candidate(name, n)
    ensures m == n
  {
    var k := |Stem(name)|;
    assert Candidate(name, m)[k..] == Decimal(m);
    assert Candidate(name, n)[k..] == Decimal(n);
    DecimalInjective(m, n);
  }

  /** Identifiers with two underscores in a row are reserved. */
  ghost predicate Reserved(s: string) {
    exists i, j :: 0 <= i && j == i + 1 && j < |s| && s[i] == '_' && s[j] == '_'
  }

  /** A candidate has two underscores in a row only if the name had. */
  lemma CandidateNotReserved(name: string, n: nat)
    requires name != "" && !Reserved(name)
    ensures !Reserved(Candidate(name, n))
  {
    var s, d, k := Candidate(name, n), Decimal(n), |Stem(name)|;
    forall i, j | 0 <= i && j == i + 1 && j < |s| && s[i] == '_' ensures s[j] != '_' {
      if j >= k {
        assert s[j] == d[j - k] && d[j - k] in d;
      } else if name != "_" && j < |name| {
        assert s[i] == name[i] && s[j] == name[j];
      }
    }
  }

  /** The candidates are tried from 1 on; `n` is the first that is not taken. */
  ghost predicate FirstFree(taken: set<string>, name: string, n: nat)
    requires name != ""
  {
    n >= 1 && Candidate(name, n) !in taken && forall m :: 1 <= m < n ==> Candidate(name, m) in taken
  }

  ghost predicate AllTaken(taken: set<string>, name: string, n: nat, tried: set<string>)
    requires name != ""
  {
    && tried <= taken && |tried| == n
    && forall s :: s in tried <==> exists m :: 1 <= m <= n && s == Candidate(name, m)
  }

  lemma OneMoreTaken(taken: set<string>, name: string, n: nat, tried: set<string>)
    requires name != "" && AllTaken(taken, name, n, tried) && Candidate(name, n + 1) in taken
    ensures AllTaken(taken, name, n + 1, tried + {Candidate(name, n + 1)}) && n + 1 <= |taken|
  {
    hide Candidate;
    var c := Candidate(name, n + 1);
    forall m | 1 <= m <= n ensures Candidate(name, m) != c {
      if Candidate(name, m) == c {
        CandidatesDiffer(name, m, n + 1);
      }
    }
    assert c !in tried;
    SubsetSize(tried + {c}, taken);
  }

  lemma FreeIsFirst(taken: set<string>, name: string, n: nat, tried: set<string>)
    requires name != "" && AllTaken(taken, name, n, tried) && Candidate(name, n + 1) !in taken
    ensures FirstFree(taken, name, n + 1)
  {
    hide Candidate;
    assert forall m :: 1 <= m < n + 1 ==> Candidate(name, m) in tried;
  }

  // ---------------------------------------------------------------- update_name_cache

  /** Returns `name` itself if it is free, else the first free candidate; an empty name stays. */
  method UpdateNameCache(primary: set<string>, secondary: set<string>, name: string)
    returns (updated: set<string>, unique: string)
    requires |primary + secondary| < COUNTER_RANGE - 1
    ensures name == "" ==> unique == "" && updated == primary
    ensures name != "" ==> unique !in primary && unique !in secondary && updated == primary + {unique}
    ensures name != "" && name !in primary && name !in secondary ==> unique == name
    ensures name != "" && (name in primary || name in secondary) ==>
              exists n: nat ::
                n < COUNTER_RANGE && FirstFree(primary + secondary, name, n) && unique == Candidate(name, n)
    ensures name != "" && (name in primary || name in secondary) ==>
              exists n: nat ::
                0 < n < COUNTER_RANGE && unique == (if name == "_" then "_0_"
                                                    else if name[|name| - 1] == '_' then name
                                                    else name + "_") + Decimal(n)
    ensures !Reserved(name) ==> !Reserved(unique)
  {
    if name == "" {
      return primary, name;
    }
    if name !in primary && name !in secondary {
      return primary + {name}, name;
    }
    var counter: nat := 0;
    var tmpname := name;
    var useLinkedUnderscore := true;
    if tmpname == "_" {
      tmpname := tmpname + "0";
    } else if tmpname[|tmpname| - 1] == '_' {
      useLinkedUnderscore := false;
    }
    ghost var tried: set<string> := {};
    ghost var all := primary + secondary;
    while true
      invariant tmpname + (if useLinkedUnderscore then "_" else "") == Stem(name)
      invariant AllTaken(all, name, counter, tried) && counter <= |all|
      decreases |all| - counter
    {
      unique := tmpname + (if useLinkedUnderscore then "_" else "") + Decimal(counter + 1);
      assert unique == Candidate(name, counter + 1);
      if unique !in primary && unique !in secondary {
        FreeIsFirst(all, name, counter, tried);
        updated := primary + {unique};
        if !Reserved(name) {
          CandidateNotReserved(name, counter + 1);
        }
        return;
      }
      OneMoreTaken(all, name, counter, tried);
      tried := tried + {unique};
      counter := counter + 1;
    }
  }

  lemma {:induction false} SubsetSize(a: set<string>, b: set<string>)
    requires a <= b
    ensures |a| <= |b|
    decreases a
  {
    if a != {} {
      var x :| x in a;
      SubsetSize(a - {x}, b - {x});
    }
  }

  /** One cache over any number of calls: no non-empty name is handed out twice. */
  class NameCache {
    var cache: set<string>
    /** The non-empty names handed out so far, in order. */
    ghost var issued: seq<string>

    ghost predicate Valid()
      reads this
    {
      && (forall s :: s in issued ==> s in cache)
      && (forall i, j :: 0 <= i < j < |issued| ==> issued[i] != issued[j])
    }

    constructor (taken: set<string>)
      ensures Valid() && cache == taken && issued == []
    {
      cache, issued := taken, [];
    }

    method Update(name: string) returns (unique: string)
      requires Valid() && |cache| < COUNTER_RANGE - 1
      modifies this
      ensures Valid()
      ensures issued == if name == "" then old(issued) else old(issued) + [unique]
      ensures cache == if name == "" then old(cache) else old(cache) + {unique}
      ensures name != "" ==> unique !in old(cache)
      ensures name != "" && name !in old(cache) ==> unique == name
      ensures name != "" && name in old(cache) ==>
                exists n: nat :: n < COUNTER_RANGE && FirstFree(old(cache), name, n) && unique == Candidate(name, n)
      ensures !Reserved(name) ==> !Reserved(unique)
    {
      assert cache + cache == cache;
      cache, unique := UpdateNameCache(cache, cache, name);
      if name != "" {
        issued := issued + [unique];
      }
    }
  }
}
