/** `LedgerCharge`: a stored charge line, whose meta map is kept as text of
    the form `key=value;key=value`.

    A Java `Map` is iterated in an order of its own choosing; here a meta
    map is the sequence of its entries in that iteration order, so the text
    it serialises to is determined.
 */
module ChargeMeta {
  import opened Wrappers
  import Text
  import Seqs

  /** A `Map<String, String>` as its entries in iteration order. */
  type Meta = seq<(string, string)>

  /** The keys of a map are distinct. */
  predicate DistinctKeys(m: Meta) {
    forall i, j :: 0 <= i < j < |m| ==> m[i].0 != m[j].0
  }

  /** `map.put(k, v)` for each entry in turn, starting from `acc`: later
      entries overwrite earlier ones with the same key. */
  function PutAll(acc: map<string, string>, m: Meta): (r: map<string, string>)
    ensures r.Keys == acc.Keys + set i | 0 <= i < |m| :: m[i].0
    ensures forall i :: 0 <= i < |m| && (forall j :: i < j < |m| ==> m[j].0 != m[i].0) ==> r[m[i].0] == m[i].1
    ensures forall k :: k in acc && (forall i :: 0 <= i < |m| ==> m[i].0 != k) ==> r[k] == acc[k]
    decreases |m|
  {
    if |m| == 0 then acc
    else
      var r := PutAll(acc[m[0].0 := m[0].1], m[1..]);
      PutAllStep(acc, m, r);
      r
  }

  /** One step of `PutAll`: what holds after putting the tail into
      `acc[head]` holds of putting all of `m` into `acc`. */
  lemma PutAllStep(acc: map<string, string>, m: Meta, r: map<string, string>)
    requires |m| > 0
    requires var acc' := acc[m[0].0 := m[0].1]; var t := m[1..];
             && r.Keys == acc'.Keys + (set i | 0 <= i < |t| :: t[i].0)
             && (forall i :: 0 <= i < |t| && (forall j :: i < j < |t| ==> t[j].0 != t[i].0) ==> r[t[i].0] == t[i].1)
             && (forall k :: k in acc' && (forall i :: 0 <= i < |t| ==> t[i].0 != k) ==> r[k] == acc'[k])
    ensures r.Keys == acc.Keys + set i | 0 <= i < |m| :: m[i].0
    ensures forall i :: 0 <= i < |m| && (forall j :: i < j < |m| ==> m[j].0 != m[i].0) ==> r[m[i].0] == m[i].1
    ensures forall k :: k in acc && (forall i :: 0 <= i < |m| ==> m[i].0 != k) ==> r[k] == acc[k]
  {
    var t := m[1..];
    assert forall i :: 1 <= i < |m| ==> m[i] == t[i - 1];
    assert (set i | 0 <= i < |m| :: m[i].0) == {m[0].0} + set i | 0 <= i < |t| :: t[i].0;
  }

  /** The map a sequence of entries denotes. */
  function MapOf(m: Meta): (r: map<string, string>)
    ensures r.Keys == set i | 0 <= i < |m| :: m[i].0
    ensures DistinctKeys(m) ==> forall i :: 0 <= i < |m| ==> r[m[i].0] == m[i].1
  {
    PutAll(map[], m)
  }

  /** One entry as `key=value`. */
  function PairText(e: (string, string)): string {
    e.0 + "=" + e.1
  }

  /** `serializeMeta(meta)`: null for an empty map; otherwise each entry as
      `key=value`, in iteration order, separated by ';'. */
  function SerializeMeta(m: Meta): (r: Option<string>)
    ensures r.None? <==> |m| == 0
    ensures r.Some? ==> r.value == Text.Join(Seqs.MapSeq(m, PairText), ";")
  {
    if |m| == 0 then None else Some(Text.Join(Seqs.MapSeq(m, PairText), ";"))
  }

  /** `pair.split("=", 2)` when it yields two parts: the text before the
      first '=' and everything after it. None when there is no '='. */
  function SplitPair(piece: string): (r: Option<(string, string)>)
    ensures r.None? <==> '=' !in piece
    ensures r.Some? ==> '=' !in r.value.0 && piece == r.value.0 + "=" + r.value.1
  {
    match Seqs.IndexOf(piece, (c: char) => c == '=')
    case None => None
    case Some(i) =>
      assert piece == piece[..i] + "=" + piece[i + 1..];
      Some((piece[..i], piece[i + 1..]))
  }

  /** The loop of `metaAsMap` over the pieces, from map `acc`. */
  function PutPieces(acc: map<string, string>, pieces: seq<string>): map<string, string>
    decreases |pieces|
  {
    if |pieces| == 0 then acc
    else
      match SplitPair(pieces[0])
      case None => PutPieces(acc, pieces[1..])
      case Some(kv) => PutPieces(acc[kv.0 := kv.1], pieces[1..])
  }

  /** `metaAsMap()`: null or empty text gives the empty map; otherwise the
      text is split at every ';', each piece at its first '=', and pieces
      without '=' are skipped. Java's `split(";")` also drops trailing empty
      pieces; an empty piece has no '=' and is skipped here anyway. */
  function MetaAsMap(meta: Option<string>): (r: map<string, string>)
    ensures meta.None? || meta == Some("") ==> r == map[]
  {
    if meta.None? || meta.value == "" then map[]
    else PutPieces(map[], Text.Split(meta.value, ';'))
  }

  /** `LedgerCharge`. */
  datatype LedgerCharge = LedgerCharge(code: string, amount: real, meta: Option<string>)

  /** `LedgerCharge.from(code, amount, meta)`. */
  function From(code: string, amount: real, meta: Meta): (r: LedgerCharge)
    ensures r.code == code && r.amount == amount
    ensures r.meta.None? <==> |meta| == 0
  {
    LedgerCharge(code, amount, SerializeMeta(meta))
  }

  /** Decoding the text of one entry puts that entry. */
  lemma PieceOfPair(e: (string, string))
    requires '=' !in e.0
    ensures SplitPair(PairText(e)) == Some(e)
  {
    var p := PairText(e);
    assert p[|e.0|] == '=';
    assert forall j :: 0 <= j < |e.0| ==> p[j] == e.0[j];
    var i := Seqs.IndexOf(p, (c: char) => c == '=').value;
    assert i == |e.0|;
    assert p[..i] == e.0;
    assert p[i + 1..] == e.1;
  }

  lemma {:induction false} PutPiecesOfPairs(acc: map<string, string>, m: Meta)
    requires forall i :: 0 <= i < |m| ==> '=' !in m[i].0
    ensures PutPieces(acc, Seqs.MapSeq(m, PairText)) == PutAll(acc, m)
    decreases |m|
  {
    if |m| > 0 {
      var pieces := Seqs.MapSeq(m, PairText);
      PieceOfPair(m[0]);
      assert pieces[1..] == Seqs.MapSeq(m[1..], PairText);
      PutPiecesOfPairs(acc[m[0].0 := m[0].1], m[1..]);
    }
  }

  /** Round trip: decoding the serialised meta gives back the map whenever
      no key contains '=' or ';' and no value contains ';'. */
  lemma MetaRoundTrip(m: Meta)
    requires forall i :: 0 <= i < |m| ==> '=' !in m[i].0 && ';' !in m[i].0 && ';' !in m[i].1
    ensures MetaAsMap(SerializeMeta(m)) == MapOf(m)
  {
    if |m| > 0 {
      var pieces := Seqs.MapSeq(m, PairText);
      forall k | 0 <= k < |pieces|
        ensures ';' !in pieces[k]
      {
        assert pieces[k] == m[k].0 + "=" + m[k].1;
      }
      Text.SplitJoin(pieces, ';');
      assert pieces[0][|m[0].0|] == '=';
      assert Text.Join(pieces, ";") != "" by {
        JoinStartsWithFirst(pieces, ";");
      }
      PutPiecesOfPairs(map[], m);
    }
  }

  lemma {:induction false} JoinStartsWithFirst(parts: seq<string>, sep: string)
    requires |parts| > 0
    ensures parts[0] <= Text.Join(parts, sep)
  {
  }

  /** Values may contain '=': only the first '=' of a pair separates, so a
      single pair decodes to its key and the whole rest of the text. */
  lemma ValueMayContainEquals(k: string, v: string)
    requires '=' !in k && ';' !in k && ';' !in v
    ensures MetaAsMap(Some(k + "=" + v)) == map[k := v]
  {
    var s := k + "=" + v;
    assert PairText((k, v)) == s;
    forall i | 0 <= i < |s|
      ensures s[i] != ';'
    {
      if i < |k| {
        assert s[i] == k[i];
      } else if i > |k| {
        assert s[i] == v[i - |k| - 1];
      }
    }
    assert Text.Split(s, ';') == [s];
    PieceOfPair((k, v));
    PutOnePiece(map[], s, (k, v));
  }

  lemma PutOnePiece(acc: map<string, string>, piece: string, kv: (string, string))
    requires SplitPair(piece) == Some(kv)
    ensures PutPieces(acc, [piece]) == acc[kv.0 := kv.1]
  {
    assert [piece][1..] == [];
  }

  /** A key containing '=' does not survive the round trip. */
  lemma KeyWithEqualsIsSplit()
    ensures MetaAsMap(SerializeMeta([("a=b", "c")])) == map["a" := "b=c"]
  {
    var s := "a=b=c";
    var pieces := Seqs.MapSeq([("a=b", "c")], PairText);
    assert pieces[0] == PairText(("a=b", "c")) == s;
    assert pieces == [s];
    assert "a" + "=" + "b=c" == s;
    ValueMayContainEquals("a", "b=c");
  }

  /** Text without '=' decodes to the empty map. */
  lemma {:induction false} PiecesWithoutEqualsAreSkipped(acc: map<string, string>, pieces: seq<string>)
    requires forall k :: 0 <= k < |pieces| ==> '=' !in pieces[k]
    ensures PutPieces(acc, pieces) == acc
    decreases |pieces|
  {
    if |pieces| > 0 {
      PiecesWithoutEqualsAreSkipped(acc, pieces[1..]);
    }
  }

  lemma NoEqualsDecodesToEmpty(s: string)
    requires '=' !in s
    ensures MetaAsMap(Some(s)) == map[]
  {
    if s != "" {
      var pieces := Text.Split(s, ';');
      forall k | 0 <= k < |pieces| ensures '=' !in pieces[k] {
        SplitPiecesAreInfixes(s, ';', k);
      }
      PiecesWithoutEqualsAreSkipped(map[], pieces);
    }
  }

  /** Every character of a piece of `Split(s, c)` is a character of `s`. */
  lemma {:induction false} SplitPiecesAreInfixes(s: string, c: char, k: nat)
    requires k < |Text.Split(s, c)|
    ensures forall x :: x in Text.Split(s, c)[k] ==> x in s
    decreases |s|
  {
    match Seqs.IndexOf(s, (x: char) => x == c)
    case None =>
    case Some(i) =>
      if k > 0 {
        SplitPiecesAreInfixes(s[i + 1..], c, k - 1);
      }
  }
}
