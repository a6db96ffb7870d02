/**
 * The abbreviation map of one document: a LinkedHashMap<String, String> from the
 * abbreviated text to its expansion, kept as its entries in insertion order, and the
 * trailing block of abbreviation definitions the renderer prints from it.
 */
module Abbreviations {
  import opened JavaText

  /** The entries of the map, in the order in which their keys were first put. */
  type Entries = seq<(string, string)>

  /** The keys of the entries, in iteration order. */
  function Keys(m: Entries): seq<string>
  {
    seq(|m|, i requires 0 <= i < |m| => m[i].0)
  }

  /** No key occurs twice: what makes the entries a map. */
  predicate UniqueKeys(m: Entries)
  {
    forall i, j :: 0 <= i < j < |m| ==> m[i].0 != m[j].0
  }

  /** Map.get: the value stored under `k`, if any. */
  function Get(m: Entries, k: string): Option<string>
    decreases |m|
  {
    if |m| == 0 then None
    else if m[0].0 == k then Some(m[0].1)
    else Get(m[1..], k)
  }

  /**
   * LinkedHashMap.put: a new key is added at the end of the iteration order; putting a
   * key that is already present replaces its value and keeps its position.
   */
  function Put(m: Entries, k: string, v: string): (r: Entries)
    ensures Keys(r) == if k in Keys(m) then Keys(m) else Keys(m) + [k]
    decreases |m|
  {
    if |m| == 0 then [(k, v)]
    else if m[0].0 == k then
      assert Keys(m)[0] == k;
      assert Keys([(k, v)] + m[1..]) == Keys(m);
      [(k, v)] + m[1..]
    else
      var rest := Put(m[1..], k, v);
      assert Keys([m[0]] + rest) == [m[0].0] + Keys(rest);
      assert Keys(m) == [m[0].0] + Keys(m[1..]);
      assert k in Keys(m) <==> k in Keys(m[1..]);
      [m[0]] + rest
  }

  /** After a put, the key maps to the new value and every other key to what it had. */
  lemma {:induction false} PutGet(m: Entries, k: string, v: string, k2: string)
    ensures Get(Put(m, k, v), k2) == if k2 == k then Some(v) else Get(m, k2)
    decreases |m|
  {
    if |m| > 0 && m[0].0 != k {
      PutGet(m[1..], k, v, k2);
      assert Put(m, k, v)[1..] == Put(m[1..], k, v);
    } else if |m| > 0 {
      assert Put(m, k, v)[1..] == m[1..];
    }
  }

  /** Put keeps the keys unique. */
  lemma PutUniqueKeys(m: Entries, k: string, v: string)
    requires UniqueKeys(m)
    ensures UniqueKeys(Put(m, k, v))
  {
    var r := Put(m, k, v);
    var ks := Keys(r);
    assert forall i :: 0 <= i < |r| ==> r[i].0 == ks[i];
    if k in Keys(m) {
      assert forall i :: 0 <= i < |m| ==> m[i].0 == Keys(m)[i];
    } else {
      forall i, j | 0 <= i < j < |r| ensures r[i].0 != r[j].0 {
        assert ks[i] == Keys(m)[i] && Keys(m)[i] == m[i].0;
        if j < |m| {
          assert ks[j] == Keys(m)[j] && Keys(m)[j] == m[j].0;
        } else {
          assert ks[j] == k;
        }
      }
    }
  }

  /** One definition line: `*[KEY]: VALUE`. */
  function DefinitionLine(e: (string, string)): string
  {
    "*[" + e.0 + "]: " + e.1
  }

  /** The definition lines of all entries, in iteration order. */
  function DefinitionLines(m: Entries): seq<string>
  {
    seq(|m|, i requires 0 <= i < |m| => DefinitionLine(m[i]))
  }

  /** The block of definitions: one line per entry, joined by line feeds, none after the last. */
  function DefinitionBlock(m: Entries): string
  {
    Join(DefinitionLines(m), "\n")
  }

  /**
   * When no key or value contains a line end, the block consists of exactly one line
   * per entry, in order, and each line names its key and value.
   */
  lemma DefinitionBlockLines(m: Entries)
    requires |m| > 0
    requires forall i :: 0 <= i < |m| ==> NoLineEnd(m[i].0) && NoLineEnd(m[i].1)
    ensures Pieces(DefinitionBlock(m)) == DefinitionLines(m)
    ensures forall i :: 0 <= i < |m| ==> Pieces(DefinitionBlock(m))[i] == "*[" + m[i].0 + "]: " + m[i].1
  {
    var lines := DefinitionLines(m);
    forall i | 0 <= i < |lines| ensures '\n' !in lines[i] && '\r' !in lines[i] {
      assert lines[i] == "*[" + m[i].0 + "]: " + m[i].1;
      assert NoLineEnd(m[i].0) && NoLineEnd(m[i].1);
    }
    PiecesOfJoin(lines);
  }

  predicate NoLineEnd(s: string)
  {
    '\n' !in s && '\r' !in s
  }
}
