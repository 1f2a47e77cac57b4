/** `get_saved_voices`: the names of the enrolled voices, read from the `.wav` files of the
    voices directory and sorted the way Python orders strings. */
module Voices {
  import opened Strings
  import opened Optional
  import opened FileStore
  import Sanitize

  /** Python's `<=` on `str`: lexicographic by code point, a prefix first. */
  predicate LexLe(a: string, b: string)
  {
    if a == [] then true
    else if b == [] then false
    else if a[0] != b[0] then a[0] < b[0]
    else LexLe(a[1..], b[1..])
  }

  lemma {:induction false} LexReflexive(a: string)
    ensures LexLe(a, a)
    decreases |a|
  {
    if a != [] {
      LexReflexive(a[1..]);
    }
  }

  lemma {:induction false} LexTotal(a: string, b: string)
    ensures LexLe(a, b) || LexLe(b, a)
    decreases |a|
  {
    if a != [] && b != [] && a[0] == b[0] {
      LexTotal(a[1..], b[1..]);
    }
  }

  lemma {:induction false} LexAntisymmetric(a: string, b: string)
    requires LexLe(a, b) && LexLe(b, a)
    ensures a == b
    decreases |a|
  {
    if a != [] {
      LexAntisymmetric(a[1..], b[1..]);
      assert a == [a[0]] + a[1..] && b == [b[0]] + b[1..];
    }
  }

  lemma {:induction false} LexTransitive(a: string, b: string, c: string)
    requires LexLe(a, b) && LexLe(b, c)
    ensures LexLe(a, c)
    decreases |a|
  {
    if a != [] && b != [] && c != [] && a[0] == b[0] && b[0] == c[0] {
      LexTransitive(a[1..], b[1..], c[1..]);
    }
  }

  predicate Sorted(s: seq<string>)
  {
    forall i, j :: 0 <= i < j < |s| ==> LexLe(s[i], s[j])
  }

  /** Insert `x` into a sorted list before the first larger element. */
  function Insert(x: string, s: seq<string>): (r: seq<string>)
    requires Sorted(s)
    ensures Sorted(r)
    ensures multiset(r) == multiset(s) + multiset{x}
  {
    if s == [] then [x]
    else if LexLe(x, s[0]) then
      BelowHead(x, s);
      ConsSorted(x, s);
      [x] + s
    else
      LexTotal(x, s[0]);
      var rest := Insert(x, s[1..]);
      HeadBelowRest(s, x, rest);
      ConsSorted(s[0], rest);
      TailMultiset(s);
      [s[0]] + rest
  }

  /** Prepending an element below all others keeps a list sorted. */
  lemma ConsSorted(h: string, s: seq<string>)
    requires Sorted(s) && forall j :: 0 <= j < |s| ==> LexLe(h, s[j])
    ensures Sorted([h] + s)
  {
    var r := [h] + s;
    forall i, j | 0 <= i < j < |r| ensures LexLe(r[i], r[j]) {
      assert r[j] == s[j - 1];
      if i > 0 {
        assert r[i] == s[i - 1];
      }
    }
  }

  /** Below the head of a sorted list is below all of it. */
  lemma BelowHead(x: string, s: seq<string>)
    requires Sorted(s) && s != [] && LexLe(x, s[0])
    ensures forall j :: 0 <= j < |s| ==> LexLe(x, s[j])
  {
    forall j | 0 <= j < |s| ensures LexLe(x, s[j]) {
      if j == 0 {
      } else {
        LexTransitive(x, s[0], s[j]);
      }
    }
  }

  /** The head of a sorted list is below the rest with `x` inserted, when it is below `x`. */
  lemma HeadBelowRest(s: seq<string>, x: string, rest: seq<string>)
    requires Sorted(s) && s != [] && LexLe(s[0], x)
    requires multiset(rest) == multiset(s[1..]) + multiset{x}
    ensures forall j :: 0 <= j < |rest| ==> LexLe(s[0], rest[j])
  {
    forall j | 0 <= j < |rest| ensures LexLe(s[0], rest[j]) {
      assert rest[j] in multiset(rest);
      if rest[j] != x {
        assert rest[j] in multiset(s[1..]);
        var k :| 0 <= k < |s[1..]| && s[1..][k] == rest[j];
        assert s[k + 1] == rest[j];
      }
    }
  }

  /** Python's `sorted` on a list of strings. */
  function Sort(s: seq<string>): (r: seq<string>)
    ensures Sorted(r)
    ensures multiset(r) == multiset(s)
  {
    if s == [] then []
    else
      assert s == [s[0]] + s[1..];
      Insert(s[0], Sort(s[1..]))
  }

  /** The head of a sorted list is below each of its elements. */
  lemma HeadIsLeast(a: seq<string>, x: string)
    requires Sorted(a) && x in multiset(a)
    ensures LexLe(a[0], x)
  {
    var i :| 0 <= i < |a| && a[i] == x;
    if i == 0 {
      LexReflexive(x);
    }
  }

  lemma TailMultiset<T>(a: seq<T>)
    requires a != []
    ensures multiset(a[1..]) == multiset(a) - multiset{a[0]}
  {
    assert a == [a[0]] + a[1..];
  }

  /** Two sorted lists with the same elements are the same list. */
  lemma {:induction false} SortedUnique(a: seq<string>, b: seq<string>)
    requires Sorted(a) && Sorted(b) && multiset(a) == multiset(b)
    ensures a == b
    decreases |a|
  {
    if a == [] {
      assert |b| == |multiset(b)| == 0;
    } else {
      assert a[0] in multiset(a);
      assert |b| == |multiset(b)| > 0;
      assert b[0] in multiset(b);
      HeadIsLeast(b, a[0]);
      HeadIsLeast(a, b[0]);
      LexAntisymmetric(a[0], b[0]);
      TailMultiset(a);
      TailMultiset(b);
      SortedUnique(a[1..], b[1..]);
      assert a == [a[0]] + a[1..] && b == [b[0]] + b[1..];
    }
  }

  /** `[f.replace(".wav", "") for f in listing if f.endswith(".wav")]` */
  function WavNames(listing: seq<string>): seq<string>
  {
    if listing == [] then []
    else if EndsWith(listing[0], ".wav") then
      [ReplaceAll(listing[0], ".wav", "")] + WavNames(listing[1..])
    else WavNames(listing[1..])
  }

  lemma {:induction false} WavNamesAppend(a: seq<string>, b: seq<string>)
    ensures WavNames(a + b) == WavNames(a) + WavNames(b)
    decreases |a|
  {
    if a == [] {
      assert a + b == b;
    } else {
      assert (a + b)[0] == a[0] && (a + b)[1..] == a[1..] + b;
      WavNamesAppend(a[1..], b);
    }
  }

  /** The names a listing contributes depend only on which files it lists. */
  lemma {:induction false} WavNamesPermutation(a: seq<string>, b: seq<string>)
    requires multiset(a) == multiset(b)
    ensures multiset(WavNames(a)) == multiset(WavNames(b))
    decreases |a|
  {
    if a == [] {
      assert |b| == |multiset(b)| == 0;
    } else {
      assert a[0] in multiset(b);
      var k :| 0 <= k < |b| && b[k] == a[0];
      assert b == b[..k] + [a[0]] + b[k + 1..];
      var rest := b[..k] + b[k + 1..];
      assert a == [a[0]] + a[1..];
      assert multiset(a) == multiset{a[0]} + multiset(a[1..]);
      assert multiset(b) == multiset(b[..k]) + multiset{a[0]} + multiset(b[k + 1..]);
      assert multiset(rest) == multiset(b[..k]) + multiset(b[k + 1..]);
      assert multiset(a[1..]) == multiset(a) - multiset{a[0]};
      assert multiset(rest) == multiset(b) - multiset{a[0]};
      WavNamesPermutation(a[1..], rest);
      WavNamesAppend([a[0]], a[1..]);
      WavNamesAppend(b[..k] + [a[0]], b[k + 1..]);
      WavNamesAppend(b[..k], [a[0]]);
      WavNamesAppend(b[..k], b[k + 1..]);
    }
  }

  /** `get_saved_voices` with the voices directory at `voicesDir` and `listing` the result of
      `os.listdir` there; `None` stands for the `NotADirectoryError` of a regular file. */
  function GetSavedVoices(fs: Fs, voicesDir: string, listing: seq<string>): (r: Option<seq<string>>)
    ensures !fs.Exists(voicesDir) ==> r == Some([])
    ensures r.None? <==> voicesDir in fs.files && voicesDir !in fs.dirs
    ensures r.Some? && fs.Exists(voicesDir) ==>
              Sorted(r.value) && multiset(r.value) == multiset(WavNames(listing))
  {
    if !fs.Exists(voicesDir) then Some([])
    else if voicesDir !in fs.dirs then None
    else Some(Sort(WavNames(listing)))
  }

  /** The list does not depend on the order in which the directory is read. */
  lemma SavedVoicesOrderIndependent(fs: Fs, voicesDir: string, a: seq<string>, b: seq<string>)
    requires multiset(a) == multiset(b)
    ensures GetSavedVoices(fs, voicesDir, a) == GetSavedVoices(fs, voicesDir, b)
  {
    if voicesDir in fs.dirs {
      WavNamesPermutation(a, b);
      SortedUnique(Sort(WavNames(a)), Sort(WavNames(b)));
    }
  }

  /** Removing `.wav` from `name + ".wav"` gives back `name` when `name` has no dot. */
  lemma {:induction false} StripWavSuffix(name: string)
    requires NoChar(name, '.')
    ensures ReplaceAll(name + ".wav", ".wav", "") == name
    decreases |name|
  {
    var s := name + ".wav";
    if name == [] {
      assert StartsWith(s, ".wav");
      assert s[4..] == [];
    } else {
      assert !StartsWith(s, ".wav") by { assert s[0] == name[0]; }
      assert s[1..] == name[1..] + ".wav";
      StripWavSuffix(name[1..]);
    }
  }

  /** Every `.wav` file of the listing contributes its name. */
  lemma {:induction false} WavNameListed(listing: seq<string>, k: nat)
    requires k < |listing| && EndsWith(listing[k], ".wav")
    ensures ReplaceAll(listing[k], ".wav", "") in WavNames(listing)
  {
    var f := listing[k];
    assert listing == listing[..k] + [f] + listing[k + 1..];
    WavNamesAppend(listing[..k] + [f], listing[k + 1..]);
    WavNamesAppend(listing[..k], [f]);
    assert WavNames([f]) == [ReplaceAll(f, ".wav", "")] + WavNames([]);
  }

  /** A voice enrolled as `SafeName(n)` is offered under that same name. */
  lemma EnrolledVoiceListed(fs: Fs, voicesDir: string, listing: seq<string>, n: string)
    requires voicesDir in fs.dirs
    requires Sanitize.SafeName(n) + ".wav" in listing
    ensures var r := GetSavedVoices(fs, voicesDir, listing);
            r.Some? && Sanitize.SafeName(n) in r.value
  {
    var name := Sanitize.SafeName(n);
    Sanitize.CleanNameHasNoDot(name);
    StripWavSuffix(name);
    var k :| 0 <= k < |listing| && listing[k] == name + ".wav";
    assert EndsWith(listing[k], ".wav");
    WavNameListed(listing, k);
    var names := WavNames(listing);
    assert name in multiset(names);
    assert name in multiset(Sort(names));
  }
}
