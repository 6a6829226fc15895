/**
 * Where a downloaded results workbook is moved: its own name when that is free in
 * the output directory, otherwise `<base>_<k><ext>` for the smallest free k >= 1.
 * The directory is given by the names it already holds.
 */
module Destination {
  import opened Util

  /** The `k`-th alternative name, `f"{base_name}_{counter}{ext}"`. */
  function Candidate(base: string, ext: string, k: nat): string
  {
    base + "_" + Dec(k) + ext
  }

  /** Different counters give different names. */
  lemma CandidateInjective(base: string, ext: string, j: nat, k: nat)
    requires Candidate(base, ext, j) == Candidate(base, ext, k)
    ensures j == k
  {
    var a, b := Candidate(base, ext, j), Candidate(base, ext, k);
    var lo := |base| + 1;
    assert a[lo..|a| - |ext|] == Dec(j);
    assert b[lo..|b| - |ext|] == Dec(k);
    DecInjective(j, k);
  }

  /** An alternative name is never the original `base + ext`. */
  lemma CandidateIsNew(base: string, ext: string, k: nat)
    ensures Candidate(base, ext, k) != base + ext
  {
    assert |Candidate(base, ext, k)| > |base + ext|;
  }

  /**
   * The collision loop of the download step: keep the name if no file has it, else try
   * `base_1.ext`, `base_2.ext`, ... until one is free. The result never collides, and
   * it is the first free alternative.
   */
  method UniqueDestination(filename: string, existing: set<string>) returns (name: string)
    ensures name !in existing
    ensures filename !in existing ==> name == filename
    ensures filename in existing ==>
      exists k: nat :: FirstFree(Splitext(filename).0, Splitext(filename).1, existing, k, name)
  {
    name := filename;
    if name in existing {
      var (baseName, ext) := Splitext(filename);
      var counter: nat := 1;
      ghost var tried: set<string> := {};
      while name in existing
        invariant Probing(filename, existing, baseName, ext, counter, name, tried)
        decreases |existing - tried|
      {
        ProbeStep(filename, existing, baseName, ext, counter, name, tried);
        tried := tried + {name};
        name := Candidate(baseName, ext, counter);
        counter := counter + 1;
      }
      assert FirstFree(baseName, ext, existing, counter - 1, name);
    }
  }

  /** The state of the collision loop after trying `counter - 1` alternatives: `name`
      is the next one to test, every name tried so far was taken, and none of them is
      `name`. */
  ghost predicate Probing(filename: string, existing: set<string>, base: string, ext: string,
                          counter: nat, name: string, tried: set<string>)
  {
    counter >= 1
    && (counter == 1 ==> name == filename)
    && (counter > 1 ==> name == Candidate(base, ext, counter - 1))
    && filename == base + ext
    && tried <= existing
    && TriedOnly(tried, base, ext, counter - 1)
    && name !in tried
    && filename in existing
    && forall j: nat :: 1 <= j < counter - 1 ==> Candidate(base, ext, j) in existing
  }

  /** A taken name joins the tried ones, and the next alternative is still untried. */
  lemma ProbeStep(filename: string, existing: set<string>, base: string, ext: string,
                  counter: nat, name: string, tried: set<string>)
    requires Probing(filename, existing, base, ext, counter, name, tried) && name in existing
    ensures Probing(filename, existing, base, ext, counter + 1, Candidate(base, ext, counter), tried + {name})
    ensures |existing - (tried + {name})| < |existing - tried|
  {
    TriedStep(tried, base, ext, counter, name);
    NotTriedYet(base, ext, tried + {name}, counter - 1);
    assert existing - (tried + {name}) < existing - tried by {
      assert name in existing - tried;
    }
  }

  /** `name` is the `k`-th alternative, and every earlier alternative is taken. */
  predicate FirstFree(base: string, ext: string, existing: set<string>, k: nat, name: string)
  {
    1 <= k && name == Candidate(base, ext, k)
    && forall j: nat :: 1 <= j < k ==> Candidate(base, ext, j) in existing
  }

  /** Every name in `tried` is the original `base + ext` or one of the first `n`
      alternatives. */
  predicate TriedOnly(tried: set<string>, base: string, ext: string, n: nat)
  {
    forall x :: x in tried ==> x == base + ext || exists j: nat :: 1 <= j <= n && x == Candidate(base, ext, j)
  }

  lemma TriedStep(tried: set<string>, base: string, ext: string, counter: nat, name: string)
    requires counter >= 1 && TriedOnly(tried, base, ext, counter - 1)
    requires name == base + ext || (counter > 1 && name == Candidate(base, ext, counter - 1))
    ensures TriedOnly(tried + {name}, base, ext, counter - 1)
    ensures TriedOnly(tried + {name}, base, ext, counter)
  {
    forall x | x in tried + {name} && x != base + ext
      ensures exists j: nat :: 1 <= j <= counter - 1 && x == Candidate(base, ext, j)
    {
      if x != name {
        var j: nat :| 1 <= j <= counter - 1 && x == Candidate(base, ext, j);
      } else {
        assert x == Candidate(base, ext, counter - 1);
      }
    }
  }

  /** The next alternative differs from the original and from every earlier one. */
  lemma NotTriedYet(base: string, ext: string, tried: set<string>, counter: nat)
    requires TriedOnly(tried, base, ext, counter)
    ensures Candidate(base, ext, counter + 1) !in tried
  {
    if Candidate(base, ext, counter + 1) in tried {
      CandidateIsNew(base, ext, counter + 1);
      var j: nat :| 1 <= j <= counter && Candidate(base, ext, counter + 1) == Candidate(base, ext, j);
      CandidateInjective(base, ext, j, counter + 1);
    }
  }
}
