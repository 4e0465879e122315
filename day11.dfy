/** Day 11: a network of devices. Each line `abc: def ghi` names a device and
    the devices its outputs feed; names are packed big-endian into integers,
    one byte per letter. `get_paths_nb_cached` counts the paths from one
    device to another with a memo that marks a device `None` while it is
    being expanded, so that a cycle back to it counts 0. Part 1 counts the
    paths `you -> out`; part 2 multiplies the counts `svr -> fft`,
    `fft -> dac` and `dac -> out`. */
module Day11 {
  import opened Common

  // ------------------------------------------------------ names as numbers

  /** `letters_to_u32` (and `word_to_u32` on the bytes of a word): the
      big-endian base-256 fold `acc * 256 + c`. */
  function Letters(s: string): nat
  {
    if s == [] then 0 else Letters(s[..|s| - 1]) * 256 + s[|s| - 1] as nat
  }

  /** Every character is one byte. */
  predicate Bytes(s: string)
  {
    forall k :: 0 <= k < |s| ==> s[k] as nat < 256
  }

  /** `u32_to_string`: bytes 2, 1 and 0 of `n`, most significant first. */
  function ToWord(n: nat): (w: string)
    ensures |w| == 3 && Bytes(w)
  {
    [((n / 0x1_0000) % 256) as char, ((n / 0x100) % 256) as char, (n % 256) as char]
  }

  /** The packing of a word of byte letters stays below `256^|s|`. */
  lemma {:induction false} LettersBound(s: string)
    requires Bytes(s) && |s| <= 3
    ensures Letters(s) < if |s| == 0 then 1 else if |s| == 1 then 0x100 else if |s| == 2 then 0x1_0000 else 0x100_0000
    decreases |s|
  {
    if s != [] {
      LettersBound(s[..|s| - 1]);
    }
  }

  /** A three-letter word is packed as `a * 65536 + b * 256 + c`. */
  lemma LettersThree(s: string)
    requires |s| == 3
    ensures Letters(s) == s[0] as nat * 0x1_0000 + s[1] as nat * 0x100 + s[2] as nat
  {
    var ab, a := s[..2], s[..1];
    assert ab[..1] == a && a[..0] == [] && a[0] == s[0] && ab[1] == s[1];
    assert Letters(a) == s[0] as nat;
    assert Letters(ab) == Letters(a) * 256 + s[1] as nat;
    assert Letters(s) == Letters(ab) * 256 + s[2] as nat;
  }

  /** `word_to_u32("you") == 0x796f75`. */
  lemma You()
    ensures Letters("you") == 0x79_6f75
  {
    LettersThree("you");
  }

  /** Unpacking inverts packing on three-byte words. */
  lemma WordRoundTrip(s: string)
    requires |s| == 3 && Bytes(s)
    ensures ToWord(Letters(s)) == s
  {
    LettersThree(s);
    var n := Letters(s);
    var a, b, c := s[0] as nat, s[1] as nat, s[2] as nat;
    assert n / 0x1_0000 == a;
    assert n / 0x100 == a * 256 + b;
    assert (a * 256 + b) % 256 == b;
    assert n % 256 == c;
  }

  /** Packing the unpacked word keeps the low three bytes of `n`. */
  lemma NumberRoundTrip(n: nat)
    ensures Letters(ToWord(n)) == n % 0x100_0000
  {
    var w := ToWord(n);
    LettersThree(w);
    var a, b, c := (n / 0x1_0000) % 256, (n / 0x100) % 256, n % 256;
    assert w[0] as nat == a && w[1] as nat == b && w[2] as nat == c;
    ByteDigits(n);
  }

  lemma ByteDigits(n: nat)
    ensures ((n / 0x1_0000) % 256) * 0x1_0000 + ((n / 0x100) % 256) * 0x100 + n % 256 == n % 0x100_0000
  {
    var q, r0 := n / 0x100, n % 0x100;
    var q2, r1 := q / 0x100, q % 0x100;
    var q3, r2 := q2 / 0x100, q2 % 0x100;
    assert n == q2 * 0x1_0000 + r1 * 0x100 + r0;
    assert n / 0x1_0000 == q2;
    assert n == q3 * 0x100_0000 + (r2 * 0x1_0000 + r1 * 0x100 + r0);
    assert n % 0x100_0000 == r2 * 0x1_0000 + r1 * 0x100 + r0;
  }

  // ------------------------------------------------------------- the graph

  /** Every device mentioned by the cables, as a source or as an output. */
  function Nodes(cables: map<nat, seq<nat>>): set<nat>
  {
    cables.Keys + set k, i | k in cables && 0 <= i < |cables[k]| :: cables[k][i]
  }

  /** `rank` strictly decreases along every cable: the graph has no cycle. */
  ghost predicate Ranked(cables: map<nat, seq<nat>>, rank: nat -> nat)
  {
    forall k, i :: k in cables && 0 <= i < |cables[k]| ==> rank(cables[k][i]) < rank(k)
  }

  /** The number of paths from `s` that stop the first time they reach `end`
      (an output listed twice is two paths). */
  ghost function Paths(cables: map<nat, seq<nat>>, rank: nat -> nat, s: nat, end: nat): nat
    requires Ranked(cables, rank)
    decreases rank(s), 1
  {
    if s == end then 1
    else if s !in cables then 0
    else Sum(Branches(cables, rank, end, cables[s], rank(s)))
  }

  /** The path counts of the outputs `v`, in order. */
  ghost function Branches(cables: map<nat, seq<nat>>, rank: nat -> nat, end: nat, v: seq<nat>, bound: nat): (r: seq<nat>)
    requires Ranked(cables, rank) && forall i :: 0 <= i < |v| ==> rank(v[i]) < bound
    ensures |r| == |v| && forall i :: 0 <= i < |v| ==> r[i] == Paths(cables, rank, v[i], end)
    decreases bound, 0
  {
    seq(|v|, i requires 0 <= i < |v| => Paths(cables, rank, v[i], end))
  }

  /** Every resolved entry of the cache holds the true path count. */
  ghost predicate Coherent(cables: map<nat, seq<nat>>, rank: nat -> nat, end: nat, cache: map<nat, Option<nat>>)
  {
    Ranked(cables, rank) &&
    forall k :: k in cache && cache[k].Some? ==> cache[k].value == Paths(cables, rank, k, end)
  }

  /** Every device being expanded (`None`) lies strictly above `s`: it is on the way to `s`. */
  ghost predicate Above(rank: nat -> nat, cache: map<nat, Option<nat>>, s: nat)
  {
    forall k :: k in cache && cache[k].None? ==> rank(k) > rank(s)
  }

  /** `b` keeps every entry of `a`. */
  predicate Extends(a: map<nat, Option<nat>>, b: map<nat, Option<nat>>)
  {
    forall k :: k in a ==> k in b && b[k] == a[k]
  }

  /** `get_paths_nb_cached`. A device already in the cache answers its count,
      or 0 while it is still being expanded (a cycle); otherwise it is marked
      `None`, its count is 1 at `end`, 0 without outputs and otherwise the
      sum over its outputs, and it is stored as `Some`. Entries already in
      the cache are never changed and every new entry is resolved. On an
      acyclic graph with a coherent cache the count is the number of paths. */
  method PathsCached(cables: map<nat, seq<nat>>, start: nat, end: nat, cache: map<nat, Option<nat>>, ghost rank: nat -> nat)
    returns (paths: nat, cache': map<nat, Option<nat>>)
    ensures start in cache ==> cache' == cache && paths == (if cache[start].Some? then cache[start].value else 0)
    ensures start !in cache ==> start in cache' && cache'[start].Some? && cache'[start].value == paths
    ensures start !in cache && start == end ==> paths == 1
    ensures start !in cache && start != end && start !in cables ==> paths == 0
    ensures Extends(cache, cache') && forall k :: k in cache' && k !in cache ==> cache'[k].Some?
    ensures Coherent(cables, rank, end, cache) && Above(rank, cache, start) ==>
              paths == Paths(cables, rank, start, end) && Coherent(cables, rank, end, cache')
    decreases Nodes(cables) + {start} - cache.Keys
  {
    if start in cache {
      paths := if cache[start].Some? then cache[start].value else 0;
      cache' := cache;
      return;
    }
    ghost var dag := Coherent(cables, rank, end, cache) && Above(rank, cache, start);
    cache' := cache[start := None];
    if start == end {
      paths := 1;
    } else if start in cables {
      var v := cables[start];
      ghost var counts: seq<nat> := if dag then Branches(cables, rank, end, v, rank(start)) else [];
      paths := 0;
      for i := 0 to |v|
        invariant cache.Keys + {start} <= cache'.Keys
        invariant Extends(cache[start := None], cache')
        invariant forall k :: k in cache' && k !in cache && k != start ==> cache'[k].Some?
        invariant dag ==> Coherent(cables, rank, end, cache')
        invariant dag ==> paths == Sum(counts[..i])
      {
        assert v[i] in Nodes(cables);
        ghost var before := cache';
        var sub;
        sub, cache' := PathsCached(cables, v[i], end, cache', rank);
        if dag {
          assert Above(rank, before, v[i]);
          SumPrefix(counts, i);
        }
        paths := paths + sub;
      }
      if dag {
        assert counts[..|v|] == counts;
      }
    } else {
      paths := 0;
    }
    cache' := cache'[start := Some(paths)];
  }

  /** `get_paths_nb`: a fresh cache. On an acyclic graph it counts the paths. */
  method PathsNumber(cables: map<nat, seq<nat>>, start: nat, end: nat, ghost rank: nat -> nat) returns (paths: nat)
    ensures start == end ==> paths == 1
    ensures start != end && start !in cables ==> paths == 0
    ensures Ranked(cables, rank) ==> paths == Paths(cables, rank, start, end)
  {
    var cache;
    paths, cache := PathsCached(cables, start, end, map[], rank);
  }

  // ------------------------------------------------------------- resolve

  /** The names of a split output list, each packed. */
  function Outputs(pieces: seq<string>): (r: seq<nat>)
    ensures |r| == |pieces| && forall i :: 0 <= i < |r| ==> r[i] == Letters(pieces[i])
  {
    seq(|pieces|, i requires 0 <= i < |pieces| => Letters(pieces[i]))
  }

  /** One line `abc: def ghi`: the device packed from bytes `0..3` and its
      outputs split on spaces from byte 5 on; a line shorter than 5 bytes
      makes the slices panic. */
  function ParseLine(line: string): Option<(nat, seq<nat>)>
  {
    if |line| < 5 then None else Some((Letters(line[0..3]), Outputs(Split(line[5..], ' '))))
  }

  /** The `cables` map after inserting the first lines, a later line with the
      same device replacing the earlier one. */
  function CablesOf(lines: seq<string>): Option<map<nat, seq<nat>>>
  {
    if lines == [] then Some(map[])
    else match CablesOf(lines[..|lines| - 1])
      case None => None
      case Some(m) =>
        match ParseLine(lines[|lines| - 1])
        case None => None
        case Some(entry) => Some(m[entry.0 := entry.1])
  }

  /** The map is defined exactly when every line is long enough. */
  lemma {:induction false} CablesDefined(lines: seq<string>)
    ensures CablesOf(lines).Some? <==> forall k :: 0 <= k < |lines| ==> |lines[k]| >= 5
    decreases |lines|
  {
    if lines != [] {
      var init := lines[..|lines| - 1];
      CablesDefined(init);
      assert forall k :: 0 <= k < |init| ==> init[k] == lines[k];
    }
  }

  /** The devices of the map are the devices the lines name. */
  lemma {:induction false} CablesKeys(lines: seq<string>, d: nat)
    requires CablesOf(lines).Some?
    ensures d in CablesOf(lines).value <==> exists k :: 0 <= k < |lines| && ParseLine(lines[k]).Some? && ParseLine(lines[k]).value.0 == d
    decreases |lines|
  {
    if lines != [] {
      var init := lines[..|lines| - 1];
      CablesKeys(init, d);
      assert forall k :: 0 <= k < |init| ==> init[k] == lines[k];
    }
  }

  /** A device holds the outputs of the last line that names it. */
  lemma {:induction false} CablesLast(lines: seq<string>, k: nat)
    requires CablesOf(lines).Some? && k < |lines| && ParseLine(lines[k]).Some?
    requires forall j :: k < j < |lines| && ParseLine(lines[j]).Some? ==> ParseLine(lines[j]).value.0 != ParseLine(lines[k]).value.0
    ensures ParseLine(lines[k]).value.0 in CablesOf(lines).value
    ensures CablesOf(lines).value[ParseLine(lines[k]).value.0] == ParseLine(lines[k]).value.1
    decreases |lines|
  {
    var init := lines[..|lines| - 1];
    if k < |lines| - 1 {
      assert init[k] == lines[k];
      assert forall j :: k < j < |init| ==> init[j] == lines[j];
      CablesLast(init, k);
    }
  }

  /** The insertion loop of `resolve`. */
  method BuildCables(lines: seq<string>) returns (ok: bool, cables: map<nat, seq<nat>>)
    ensures ok == CablesOf(lines).Some?
    ensures ok ==> cables == CablesOf(lines).value
  {
    cables := map[];
    for n := 0 to |lines|
      invariant CablesOf(lines[..n]).Some? && cables == CablesOf(lines[..n]).value
    {
      assert lines[..n + 1][..n] == lines[..n];
      var line := lines[n];
      if |line| < 5 {
        CablesNone(lines, n + 1);
        return false, cables;
      }
      cables := cables[Letters(line[0..3]) := Outputs(Split(line[5..], ' '))];
    }
    assert lines[..|lines|] == lines;
    return true, cables;
  }

  /** Once a prefix has no map, no longer input has one. */
  lemma {:induction false} CablesNone(lines: seq<string>, n: nat)
    requires n <= |lines| && CablesOf(lines[..n]).None?
    ensures CablesOf(lines).None?
    decreases |lines| - n
  {
    if n < |lines| {
      assert lines[..n + 1][..n] == lines[..n];
      CablesNone(lines, n + 1);
    } else {
      assert lines[..n] == lines;
    }
  }

  /** `resolve`: part 1 counts `you -> out`, part 2 is the product of the
      counts along `svr -> fft -> dac -> out`, each with a fresh cache. On an
      acyclic network these are path counts. */
  method Resolve(lines: seq<string>, ghost rank: nat -> nat) returns (ok: bool, p1: nat, p2: nat)
    ensures ok == CablesOf(lines).Some?
    ensures ok && Ranked(CablesOf(lines).value, rank) ==>
              var c := CablesOf(lines).value;
              p1 == Paths(c, rank, Letters("you"), Letters("out")) &&
              p2 == Paths(c, rank, Letters("svr"), Letters("fft")) * Paths(c, rank, Letters("fft"), Letters("dac"))
                    * Paths(c, rank, Letters("dac"), Letters("out"))
  {
    var cables;
    ok, cables := BuildCables(lines);
    if !ok {
      return false, 0, 0;
    }
    var you, out, svr, fft, dac := Letters("you"), Letters("out"), Letters("svr"), Letters("fft"), Letters("dac");
    p1 := PathsNumber(cables, you, out, rank);
    var a := PathsNumber(cables, svr, fft, rank);
    var b := PathsNumber(cables, fft, dac, rank);
    var c := PathsNumber(cables, dac, out, rank);
    p2 := a * b * c;
  }
}
