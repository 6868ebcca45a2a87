/**
 * The cookie-string parser `new Map(cookie.split(/\s*;\s*\/).map(it => it.split('=')))`
 * used by the account constructor and by the older script's `parseCookie`.
 *
 * Splitting on the regular expression is written as splitting on `;` and then
 * dropping the white space next to each `;`: the match of `\s*;\s*` that the
 * regular expression finds is exactly one `;` together with the white-space
 * runs on both sides of it. White space at the very start or end of the string
 * is kept. A `Map` built from the pieces takes piece 0 as the key and piece 1
 * as the value (undefined, here None, when a segment holds no `=`); a later
 * entry with the same key replaces an earlier one.
 */
module Cookie {
  import opened Wrappers
  import JsRuntime

  type Entry = (string, Option<string>)

  /**
   * `seg` is what is left of `piece` once white space is removed at its ends:
   * it is the slice starting at `lo`, and every character outside that slice is `\s`.
   */
  ghost predicate SpaceTrimmed(seg: string, piece: string, lo: int) {
    && 0 <= lo && lo + |seg| <= |piece| && seg == piece[lo..lo + |seg|]
    && (forall j :: 0 <= j < lo ==> JsRuntime.IsSpace(piece[j]))
    && (forall j :: lo + |seg| <= j < |piece| ==> JsRuntime.IsSpace(piece[j]))
  }

  /**
   * Segment `seg` is piece `i` of the `;`-split with all the white space that
   * touches a `;` removed, and nothing else: the first piece keeps its start,
   * the last piece keeps its end, and a trimmed end is not white space.
   */
  ghost predicate TrimmedPiece(seg: string, parts: seq<string>, i: nat)
    requires i < |parts|
  {
    && (exists lo :: SpaceTrimmed(seg, parts[i], lo)
                     && (i == 0 ==> lo == 0)
                     && (i == |parts| - 1 ==> lo + |seg| == |parts[i]|))
    && (i > 0 && |seg| > 0 ==> !JsRuntime.IsSpace(seg[0]))
    && (i < |parts| - 1 && |seg| > 0 ==> !JsRuntime.IsSpace(seg[|seg| - 1]))
  }

  /** Piece `i` of the `;`-split with the white space that touches a `;` removed. */
  function TrimAtSeparators(parts: seq<string>, i: nat): (seg: string)
    requires i < |parts|
    ensures TrimmedPiece(seg, parts, i)
    ensures forall c :: c in seg ==> c in parts[i]
  {
    var p := parts[i];
    if i > 0 && i < |parts| - 1 then
      var seg := JsRuntime.Trim(p);
      Trimmed(seg, parts, i, |p| - |JsRuntime.TrimStart(p)|);
      seg
    else if i > 0 then
      var seg := JsRuntime.TrimStart(p);
      Trimmed(seg, parts, i, |p| - |seg|);
      seg
    else if i < |parts| - 1 then
      var seg := JsRuntime.TrimEnd(p);
      Trimmed(seg, parts, i, 0);
      seg
    else
      assert p[0..|p|] == p;
      Trimmed(p, parts, i, 0);
      p
  }

  /** The facts TrimAtSeparators establishes, from the slice it keeps. */
  lemma Trimmed(seg: string, parts: seq<string>, i: nat, lo: int)
    requires i < |parts| && SpaceTrimmed(seg, parts[i], lo)
    requires i == 0 ==> lo == 0
    requires i == |parts| - 1 ==> lo + |seg| == |parts[i]|
    requires i > 0 && |seg| > 0 ==> !JsRuntime.IsSpace(seg[0])
    requires i < |parts| - 1 && |seg| > 0 ==> !JsRuntime.IsSpace(seg[|seg| - 1])
    ensures TrimmedPiece(seg, parts, i)
    ensures forall c :: c in seg ==> c in parts[i]
  {
  }

  /**
   * `cookie.split(/\s*;\s*\/)`: one segment per `;`-separated piece, none of
   * them holding a `;`, each the piece less the white space next to a `;`.
   */
  function Segments(cookie: string): (segs: seq<string>)
    ensures var parts := JsRuntime.Split(cookie, ';');
            && |segs| == |parts|
            && (forall i :: 0 <= i < |segs| ==> ';' !in segs[i])
            && (forall i :: 0 <= i < |segs| ==> TrimmedPiece(segs[i], parts, i))
  {
    var parts := JsRuntime.Split(cookie, ';');
    seq(|parts|, i requires 0 <= i < |parts| => TrimAtSeparators(parts, i))
  }

  /**
   * One segment split on `=`, as the `[key, value]` pair `new Map` reads: the
   * key runs up to the first `=`; the value, present exactly when the segment
   * holds a `=`, runs from there up to the second `=` or the end.
   */
  function SegmentEntry(segment: string): (e: Entry)
    ensures '=' !in e.0 && |e.0| <= |segment| && e.0 == segment[..|e.0|]
    ensures e.1.None? <==> '=' !in segment
    ensures e.1.None? ==> e.0 == segment
    ensures e.1.Some? ==>
              var k := |e.0| + 1; var v := e.1.value;
              && '=' !in v && k + |v| <= |segment| && segment[k - 1] == '='
              && segment[k..k + |v|] == v
              && (k + |v| == |segment| || segment[k + |v|] == '=')
  {
    var i := JsRuntime.IndexOf(segment, '=');
    if i == |segment| then
      assert segment[..i] == segment;
      (segment, None)
    else
      var rest := segment[i + 1..];
      var j := JsRuntime.IndexOf(rest, '=');
      JsRuntime.PiecesAround(segment, '=', i, j);
      (segment[..i], Some(rest[..j]))
  }

  /** SegmentEntry takes pieces 0 and 1 of `segment.split('=')`. */
  lemma SegmentEntrySplit(segment: string)
    ensures var p := JsRuntime.Split(segment, '=');
            SegmentEntry(segment) == (p[0], if |p| >= 2 then Some(p[1]) else None)
  {
    var i := JsRuntime.IndexOf(segment, '=');
    JsRuntime.SplitFirst(segment, '=');
    if i < |segment| {
      JsRuntime.SplitSecond(segment, '=');
      JsRuntime.SplitFirst(segment[i + 1..], '=');
    } else {
      assert segment[..i] == segment;
    }
  }

  /** `new Map(entries)`: entries are inserted in order, so each key is present and the last entry is the one stored. */
  function ToMap(entries: seq<Entry>): (m: map<string, Option<string>>)
    ensures forall i :: 0 <= i < |entries| ==> entries[i].0 in m
    ensures |entries| > 0 ==> m[entries[|entries| - 1].0] == entries[|entries| - 1].1
    decreases |entries|
  {
    if |entries| == 0 then map[]
    else
      var init := entries[..|entries| - 1];
      var last := entries[|entries| - 1];
      assert forall i :: 0 <= i < |init| ==> init[i] == entries[i];
      ToMap(init)[last.0 := last.1]
  }

  /** The entries `new Map` receives: segment `i` gives entry `i`. */
  function Entries(cookie: string): (es: seq<Entry>)
    ensures |es| == |Segments(cookie)|
    ensures forall i :: 0 <= i < |es| ==> es[i] == SegmentEntry(Segments(cookie)[i])
  {
    var segs := Segments(cookie);
    seq(|segs|, i requires 0 <= i < |segs| => SegmentEntry(segs[i]))
  }

  /** The parsed cookie map: its keys are exactly the keys of the segments. */
  function Parse(cookie: string): (m: map<string, Option<string>>)
    ensures forall k :: k in m <==>
              exists i :: 0 <= i < |Segments(cookie)| && SegmentEntry(Segments(cookie)[i]).0 == k
  {
    var es := Entries(cookie);
    ToMapKeysAll(es);
    ToMap(es)
  }

  /** `map.get(key)`: undefined both for a missing key and for a key without a value. */
  function Get(m: map<string, Option<string>>, key: string): Option<string> {
    if key in m then m[key] else None
  }

  lemma ToMapKeysAll(entries: seq<Entry>)
    ensures forall k :: k in ToMap(entries) <==> exists i :: 0 <= i < |entries| && entries[i].0 == k
  {
    forall k {
      ToMapKeys(entries, k);
    }
  }

  /** A key is in the map exactly when some entry carries it. */
  lemma {:induction false} ToMapKeys(entries: seq<Entry>, k: string)
    ensures k in ToMap(entries) <==> exists i :: 0 <= i < |entries| && entries[i].0 == k
    decreases |entries|
  {
    if |entries| > 0 {
      var init := entries[..|entries| - 1];
      ToMapKeys(init, k);
      if k in ToMap(init) {
        var i :| 0 <= i < |init| && init[i].0 == k;
        assert entries[i].0 == k;
      }
      if exists i :: 0 <= i < |entries| && entries[i].0 == k {
        var i :| 0 <= i < |entries| && entries[i].0 == k;
        if i < |init| {
          assert init[i].0 == k;
        }
      }
    }
  }

  /** The value for a key is the one of its LAST entry: a later duplicate overwrites. */
  lemma {:induction false} ToMapLastWins(entries: seq<Entry>, i: nat)
    requires i < |entries|
    requires forall j :: i < j < |entries| ==> entries[j].0 != entries[i].0
    ensures entries[i].0 in ToMap(entries) && ToMap(entries)[entries[i].0] == entries[i].1
    decreases |entries|
  {
    if i < |entries| - 1 {
      var init := entries[..|entries| - 1];
      ToMapLastWins(init, i);
    }
  }

  /** A segment without `=` is a key whose value is undefined. */
  lemma SegmentWithoutEquals(segment: string)
    requires '=' !in segment
    ensures SegmentEntry(segment) == (segment, None)
  {
  }

  /** Only the text between the first and the second `=` is kept as the value. */
  lemma SegmentKeepsFirstValue(k: string, v: string, rest: string)
    requires '=' !in k && '=' !in v
    ensures SegmentEntry(k + "=" + v + "=" + rest) == (k, Some(v))
  {
    var segment := k + "=" + v + "=" + rest;
    assert segment == k + ['='] + (v + "=" + rest);
    JsRuntime.IndexOfAfter(k, v + "=" + rest, '=');
    assert segment[..|k|] == k;
    var after := segment[|k| + 1..];
    assert after == v + ['='] + rest;
    JsRuntime.IndexOfAfter(v, rest, '=');
    assert after[..|v|] == v;
  }

  /** A `key=value` segment with no `=` in either half. */
  lemma SegmentKeyValue(k: string, v: string)
    requires '=' !in k && '=' !in v
    ensures SegmentEntry(k + "=" + v) == (k, Some(v))
  {
    var segment := k + "=" + v;
    assert segment == k + ['='] + v;
    JsRuntime.IndexOfAfter(k, v, '=');
    assert segment[..|k|] == k;
    assert segment[|k| + 1..] == v;
    assert v[..|v|] == v;
  }

  /** A cookie `name=value` pair that survives being written as `k1=v1; k2=v2; ...`. */
  predicate WellFormedPair(p: (string, string)) {
    && ';' !in p.0 && '=' !in p.0 && ';' !in p.1 && '=' !in p.1
    && (|p.0| > 0 ==> !JsRuntime.IsSpace(p.0[0]))
    && (|p.1| > 0 ==> !JsRuntime.IsSpace(p.1[|p.1| - 1]))
  }

  /** Segment `i` of a rendered cookie: pairs after the first follow "; ". */
  function RenderedSegment(pairs: seq<(string, string)>, i: nat): string
    requires i < |pairs|
  {
    (if i > 0 then " " else "") + pairs[i].0 + "=" + pairs[i].1
  }

  function RenderedSegments(pairs: seq<(string, string)>): (segs: seq<string>)
    ensures |segs| == |pairs|
    ensures forall i :: 0 <= i < |pairs| ==> segs[i] == RenderedSegment(pairs, i)
  {
    seq(|pairs|, i requires 0 <= i < |pairs| => RenderedSegment(pairs, i))
  }

  /** The header form `k1=v1; k2=v2; ...`. */
  function Render(pairs: seq<(string, string)>): string {
    JsRuntime.Join(RenderedSegments(pairs), ';')
  }

  /** The entries a rendered cookie should produce, in order. */
  function PairEntries(pairs: seq<(string, string)>): (es: seq<Entry>)
    ensures |es| == |pairs|
    ensures forall i :: 0 <= i < |pairs| ==> es[i] == (pairs[i].0, Some(pairs[i].1))
  {
    seq(|pairs|, i requires 0 <= i < |pairs| => (pairs[i].0, Some(pairs[i].1)))
  }

  lemma TrimStartOneSpace(s: string)
    requires |s| > 0 && !JsRuntime.IsSpace(s[0])
    ensures JsRuntime.TrimStart(" " + s) == s
  {
    assert (" " + s)[1..] == s;
  }

  lemma TrimEndNoSpace(s: string)
    requires |s| > 0 && !JsRuntime.IsSpace(s[|s| - 1])
    ensures JsRuntime.TrimEnd(s) == s
  {
  }

  lemma KeyValueEnds(k: string, v: string)
    requires WellFormedPair((k, v))
    ensures var kv := k + "=" + v;
            |kv| > 0 && !JsRuntime.IsSpace(kv[0]) && !JsRuntime.IsSpace(kv[|kv| - 1])
  {
    var kv := k + "=" + v;
    if |k| > 0 {
      assert kv[0] == k[0];
    } else {
      assert kv[0] == '=';
    }
    if |v| > 0 {
      assert kv[|kv| - 1] == v[|v| - 1];
    } else {
      assert kv[|kv| - 1] == '=';
    }
  }

  lemma TrimRendered(pairs: seq<(string, string)>, i: nat)
    requires i < |pairs| && WellFormedPair(pairs[i])
    ensures TrimAtSeparators(RenderedSegments(pairs), i) == pairs[i].0 + "=" + pairs[i].1
  {
    var k, v := pairs[i].0, pairs[i].1;
    var kv := k + "=" + v;
    KeyValueEnds(k, v);
    TrimEndNoSpace(kv);
    var segs := RenderedSegments(pairs);
    assert segs[i] == RenderedSegment(pairs, i);
    if i > 0 {
      assert segs[i] == " " + kv;
      TrimStartOneSpace(kv);
    } else {
      assert segs[i] == kv;
    }
  }

  /**
   * Parsing a rendered cookie gives each name the value of its last occurrence:
   * `"k1=v1; k2=v2"` parses to k1 -> v1 and k2 -> v2.
   */
  lemma ParseRender(pairs: seq<(string, string)>)
    requires |pairs| >= 1
    requires forall i :: 0 <= i < |pairs| ==> WellFormedPair(pairs[i])
    ensures Parse(Render(pairs)) == ToMap(PairEntries(pairs))
  {
    var segs := RenderedSegments(pairs);
    JsRuntime.SplitJoin(segs, ';');
    var es := Entries(Render(pairs));
    var want := PairEntries(pairs);
    forall i | 0 <= i < |pairs| ensures es[i] == want[i] {
      RenderedEntry(pairs, i);
    }
    assert es == want;
  }

  /** Entry `i` of a rendered cookie is pair `i`. */
  lemma RenderedEntry(pairs: seq<(string, string)>, i: nat)
    requires i < |pairs| && WellFormedPair(pairs[i])
    ensures SegmentEntry(TrimAtSeparators(RenderedSegments(pairs), i)) == (pairs[i].0, Some(pairs[i].1))
  {
    TrimRendered(pairs, i);
    SegmentKeyValue(pairs[i].0, pairs[i].1);
  }

  lemma RenderTwo(k1: string, v1: string, k2: string, v2: string)
    ensures Render([(k1, v1), (k2, v2)]) == k1 + "=" + v1 + "; " + k2 + "=" + v2
  {
    var pairs := [(k1, v1), (k2, v2)];
    var segs := RenderedSegments(pairs);
    assert segs[0] == RenderedSegment(pairs, 0) == "" + k1 + "=" + v1;
    assert "" + k1 == k1;
    assert segs[1] == RenderedSegment(pairs, 1) == " " + k2 + "=" + v2;
    assert segs[1..] == [segs[1]];
    assert JsRuntime.Join(segs, ';') == segs[0] + [';'] + segs[1];
  }

  lemma EntriesTwo(k1: string, v1: string, k2: string, v2: string)
    ensures ToMap(PairEntries([(k1, v1), (k2, v2)])) == map[k1 := Some(v1), k2 := Some(v2)]
  {
    var es := PairEntries([(k1, v1), (k2, v2)]);
    assert es == [(k1, Some(v1)), (k2, Some(v2))];
    assert es[..1] == [(k1, Some(v1))];
    assert es[..1][..0] == [];
    assert ToMap(es[..1]) == map[k1 := Some(v1)];
    assert ToMap(es) == ToMap(es[..1])[k2 := Some(v2)];
  }

  /** The concrete case: two distinct names each keep their value. */
  lemma ParseTwoPairs(k1: string, v1: string, k2: string, v2: string)
    requires WellFormedPair((k1, v1)) && WellFormedPair((k2, v2)) && k1 != k2
    ensures Parse(k1 + "=" + v1 + "; " + k2 + "=" + v2) == map[k1 := Some(v1), k2 := Some(v2)]
  {
    ParseRender([(k1, v1), (k2, v2)]);
    RenderTwo(k1, v1, k2, v2);
    EntriesTwo(k1, v1, k2, v2);
  }
}
