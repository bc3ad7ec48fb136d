/** Writing NAL units as an Annex-B stream and parsing them back (clauses B.1.1 and 7.4.1 of ITU-T H.264). */
module AnnexbRoundTrip {
  import opened Annexb
  import opened Common

  type Nal = seq<Byte>

  function Zeros(k: nat): seq<Byte> { seq(k, i => 0) }

  /** `k` zero bytes and a one: two zeros make a short start code, three a long one, more are padding. */
  function StartCode(k: nat): seq<Byte> { Zeros(k) + [1] }

  /** What a unit may be: not empty, not ending in zero, and with no start code inside. */
  ghost predicate Clean(u: Nal) {
    u != [] && u[|u| - 1] != 0
    && forall i :: 0 <= i < |u| - 2 ==> !(u[i] == 0 && u[i + 1] == 0 && u[i + 2] == 1)
  }

  ghost predicate AllClean(units: seq<Nal>) { forall i :: 0 <= i < |units| ==> Clean(units[i]) }

  ghost predicate Pads(pads: seq<nat>) { forall i :: 0 <= i < |pads| ==> pads[i] >= 2 }

  /** Units, each closed by the start code of what follows. */
  ghost function Body(units: seq<Nal>, pads: seq<nat>): seq<Byte>
    requires |units| == |pads|
  {
    if units == [] then [] else units[0] + (StartCode(pads[0]) + Body(units[1..], pads[1..]))
  }

  ghost function Written(lead: nat, units: seq<Nal>, pads: seq<nat>): seq<Byte>
    requires |units| == |pads|
  {
    StartCode(lead) + Body(units, pads)
  }

  /** The code that closes a unit is the first one met, and only padding lies between. */
  lemma FirstCodeAfter(u: Nal, k: nat, rest: seq<Byte>)
    requires (u == [] || Clean(u)) && k >= 2
    ensures var data := u + (StartCode(k) + rest);
            && FirstCode(data) == |u| + k - 2 < |data|
            && data[|u| + k + 1..] == rest && data[..|u| + k - 2] == u + Zeros(k - 2)
  {
    var data := u + (StartCode(k) + rest);
    var f := |u| + k - 2;
    assert forall i :: 0 <= i < |u| ==> data[i] == u[i];
    assert forall i :: |u| <= i < |u| + k ==> data[i] == 0;
    assert data[|u| + k] == 1;
    forall j | 0 <= j < f
      ensures !CodeAt(data, j)
    {
      if j + 3 <= |u| {
        assert !CodeAt(u, j);
      } else if j + 1 != |u| {
        assert data[j + 2] == 0;
      }
    }
    FirstCodeUnique(data, 0, f);
  }

  lemma CutOne(u: Nal, k: nat, rest: seq<Byte>)
    requires Clean(u) && k >= 2
    ensures Cut(u + (StartCode(k) + rest)) == ([u] + Cut(rest).0, Cut(rest).1)
  {
    var data := u + (StartCode(k) + rest);
    FirstCodeAfter(u, k, rest);
    CutStep(data, u + Zeros(k - 2), rest);
    TrimmedPadding(u, k - 2);
  }

  lemma CutStep(data: seq<Byte>, unit: seq<Byte>, rest: seq<Byte>)
    requires FirstCode(data) == |unit| < |data| && data[..|unit|] == unit && data[|unit| + 3..] == rest
    ensures Cut(data) == ([Trimmed(unit)] + Cut(rest).0, Cut(rest).1)
  {
  }

  lemma TrimmedPadding(u: Nal, k: nat)
    requires Clean(u)
    ensures Trimmed(u + Zeros(k)) == u
  {
    TrimmedUnique(u + Zeros(k), |u|);
    assert (u + Zeros(k))[..|u|] == u;
  }

  lemma {:induction false} CutBody(units: seq<Nal>, pads: seq<nat>)
    requires |units| == |pads| && AllClean(units) && Pads(pads)
    ensures Cut(Body(units, pads)) == (units, [])
    decreases |units|
  {
    if units != [] {
      CutBody(units[1..], pads[1..]);
      CutOne(units[0], pads[0], Body(units[1..], pads[1..]));
      assert [units[0]] + units[1..] == units;
    }
  }

  // ------------------------------------------------------------------ which units share a picture

  predicate IsSlice(u: Nal) { NalType(u) == 1 || NalType(u) == 5 }

  predicate IsParameterSet(u: Nal) { NalType(u) == 7 || NalType(u) == 8 }

  ghost predicate NoSlice(units: seq<Nal>) { forall i :: 0 <= i < |units| ==> !IsSlice(units[i]) }

  /** The units of one picture: whatever came before its slice, and the slice. */
  ghost predicate IsGroup(g: seq<Nal>) {
    g != [] && IsSlice(g[|g| - 1]) && NoSlice(g[..|g| - 1])
  }

  /** The units cut after each slice. Nothing is lost or moved, and no other cut has these properties. */
  ghost function Groups(units: seq<Nal>): (r: (seq<seq<Nal>>, seq<Nal>))
    ensures (forall i :: 0 <= i < |r.0| ==> IsGroup(r.0[i])) && NoSlice(r.1)
    ensures Flat(r.0) + r.1 == units
  {
    if units == [] then ([], [])
    else
      var (groups, tail) := Groups(units[1..]);
      if IsSlice(units[0]) then ([[units[0]]] + groups, tail)
      else if groups == [] then ([], units)
      else
        LongerGroup(units[0], groups[0]);
        ([[units[0]] + groups[0]] + groups[1..], tail)
  }

  lemma LongerGroup(u: Nal, g: seq<Nal>)
    requires !IsSlice(u) && IsGroup(g)
    ensures IsGroup([u] + g)
  {
    var more := [u] + g;
    assert more[..|more| - 1] == [u] + g[..|g| - 1];
  }

  /** The bytes of some units as every picture carries them. */
  ghost function Rendered(units: seq<Nal>): seq<Byte>
    decreases |units|
  {
    if units == [] then [] else Rendered(units[..|units| - 1]) + LONG_CODE + units[|units| - 1]
  }

  ghost predicate HasParameters(units: seq<Nal>) { exists u <- units :: IsParameterSet(u) }

  /** A picture holds its units in order, and is a keyframe when its slice is an IDR slice or a parameter set
      rides with it. */
  ghost function PictureOf(g: seq<Nal>): Picture
    requires g != []
  {
    Picture(Rendered(g), NalType(g[|g| - 1]) == 5 || HasParameters(g))
  }

  ghost function Pictures(groups: seq<seq<Nal>>): seq<Picture>
    requires forall i :: 0 <= i < |groups| ==> groups[i] != []
  {
    seq(|groups|, i requires 0 <= i < |groups| => PictureOf(groups[i]))
  }

  lemma {:induction false} GroupsOfPrefix(w: seq<Nal>, u: Nal, rest: seq<Nal>)
    requires NoSlice(w) && IsSlice(u)
    ensures Groups(w + ([u] + rest)) == ([w + [u]] + Groups(rest).0, Groups(rest).1)
    decreases |w|
  {
    var all := w + ([u] + rest);
    if w == [] {
      assert all == [u] + rest && all[1..] == rest;
      assert w + [u] == [u];
    } else {
      assert all[1..] == w[1..] + ([u] + rest);
      GroupsOfPrefix(w[1..], u, rest);
      assert [w[0]] + (w[1..] + [u]) == w + [u];
      assert Groups(all[1..]).0[1..] == Groups(rest).0;
    }
  }

  lemma {:induction false} GroupsOfNoSlice(w: seq<Nal>)
    requires NoSlice(w)
    ensures Groups(w) == ([], w)
    decreases |w|
  {
    if w != [] { GroupsOfNoSlice(w[1..]); }
  }

  lemma PicturesCons(g: seq<Nal>, groups: seq<seq<Nal>>)
    requires g != [] && forall i :: 0 <= i < |groups| ==> groups[i] != []
    ensures Pictures([g] + groups) == [PictureOf(g)] + Pictures(groups)
  {
  }

  lemma RenderedSnoc(w: seq<Nal>, u: Nal)
    ensures Rendered(w + [u]) == Rendered(w) + LONG_CODE + u
    ensures HasParameters(w + [u]) <==> HasParameters(w) || IsParameterSet(u)
  {
    assert (w + [u])[..|w|] == w;
    if HasParameters(w) {
      var x :| x in w && IsParameterSet(x);
      assert x in w + [u];
    }
    if IsParameterSet(u) { assert u in w + [u]; }
  }

  /** From a state in which the units of `w` wait, taking more gives the pictures their groups make. */
  ghost predicate Grouped(w: seq<Nal>, units: seq<Nal>, out: seq<Picture>) {
    var (groups, tail) := Groups(w + units);
    AbsorbAll(Acc(Rendered(w), HasParameters(w), out), units) ==
        Acc(Rendered(tail), HasParameters(tail), out + Pictures(groups))
  }

  /** The parser groups units exactly so: parameter sets and everything else ride with the next slice. */
  lemma {:induction false} AbsorbGroups(w: seq<Nal>, units: seq<Nal>, out: seq<Picture>)
    requires NoSlice(w) && AllClean(units)
    ensures Grouped(w, units, out)
    decreases |units|
  {
    if units == [] {
      GroupsOfNoSlice(w);
      assert w + units == w && out + [] == out;
    } else {
      var u, rest := units[0], units[1..];
      assert Clean(u) && units == [u] + rest;
      if IsSlice(u) {
        AbsorbGroups([], rest, out + [PictureOf(w + [u])]);
        GroupedSlice(w, u, rest, out);
      } else {
        AbsorbGroups(w + [u], rest, out);
        GroupedOther(w, u, rest, out);
      }
    }
  }

  lemma GroupedSlice(w: seq<Nal>, u: Nal, rest: seq<Nal>, out: seq<Picture>)
    requires NoSlice(w) && IsSlice(u) && Grouped([], rest, out + [PictureOf(w + [u])])
    ensures Grouped(w, [u] + rest, out)
  {
    AbsorbSlice(w, u, out);
    SliceCloses(w, u, rest, out);
    assert ([u] + rest)[1..] == rest;
  }

  lemma GroupedOther(w: seq<Nal>, u: Nal, rest: seq<Nal>, out: seq<Picture>)
    requires Clean(u) && !IsSlice(u) && Grouped(w + [u], rest, out)
    ensures Grouped(w, [u] + rest, out)
  {
    AbsorbOther(w, u, out);
    assert w + [u] + rest == w + ([u] + rest);
    assert ([u] + rest)[1..] == rest;
  }

  lemma AbsorbOther(w: seq<Nal>, u: Nal, out: seq<Picture>)
    requires Clean(u) && !IsSlice(u)
    ensures Absorb(Acc(Rendered(w), HasParameters(w), out), u) == Acc(Rendered(w + [u]), HasParameters(w + [u]), out)
  {
    RenderedSnoc(w, u);
  }

  lemma AbsorbSlice(w: seq<Nal>, u: Nal, out: seq<Picture>)
    requires IsSlice(u)
    ensures Absorb(Acc(Rendered(w), HasParameters(w), out), u) == Acc([], false, out + [PictureOf(w + [u])])
  {
    RenderedSnoc(w, u);
  }

  lemma SliceCloses(w: seq<Nal>, u: Nal, rest: seq<Nal>, out: seq<Picture>)
    requires NoSlice(w) && IsSlice(u)
    ensures Groups(w + ([u] + rest)).1 == Groups([] + rest).1
    ensures out + Pictures(Groups(w + ([u] + rest)).0) == out + [PictureOf(w + [u])] + Pictures(Groups([] + rest).0)
  {
    GroupsOfPrefix(w, u, rest);
    assert [] + rest == rest;
    PicturesCons(w + [u], Groups(rest).0);
    Associative(out, [PictureOf(w + [u])], Pictures(Groups(rest).0));
  }

  // ------------------------------------------------------------------ types, from the bytes

  /** After `z` zeros comes a byte with `h` in its upper three bits and `t` in its lower five. */
  ghost predicate TypedAt(u: Nal, z: nat, h: nat, t: nat) {
    && z < |u| && (forall k :: 0 <= k < z ==> u[k] == 0)
    && u[z] != 0 && u[z] == 32 * h + t && h < 8 && t < 32
  }

  ghost predicate OfType(u: Nal, t: nat) { exists z: nat, h: nat :: TypedAt(u, z, h, t) }

  /** A unit whose first byte that counts is of such a type is of that type, whatever follows. */
  lemma {:induction false} TypeIsRead(u: Nal, z: nat, h: nat, t: nat)
    requires TypedAt(u, z, h, t)
    ensures NalType(u) == t
    decreases |u|
  {
    if z > 0 {
      assert u[0] == 0;
      TypeIsRead(u[1..], z - 1, h, t);
    }
  }

  lemma {:induction false} TypeIsThere(u: Nal) returns (z: nat, h: nat)
    requires NalType(u) != -1
    ensures TypedAt(u, z, h, NalType(u))
    decreases |u|
  {
    if u[0] != 0 {
      z, h := 0, u[0] / 32;
    } else {
      z, h := TypeIsThere(u[1..]);
      z := z + 1;
      assert forall k :: 0 < k < z ==> u[k] == u[1..][k - 1];
    }
  }

  lemma TypeIsOfType(u: Nal, t: nat)
    ensures OfType(u, t) <==> NalType(u) == t
  {
    if NalType(u) == t { var z, h := TypeIsThere(u); }
    if OfType(u, t) {
      var z: nat, h: nat :| TypedAt(u, z, h, t);
      TypeIsRead(u, z, h, t);
    }
  }

  /** Coded slices close a picture, of an IDR picture or not. */
  ghost predicate Closes(u: Nal) { OfType(u, 1) || OfType(u, 5) }

  lemma ClosesIsSlice(u: Nal)
    ensures Closes(u) <==> IsSlice(u)
  {
    TypeIsOfType(u, 1);
    TypeIsOfType(u, 5);
  }

  /** One picture and the units it is of: the last of them closes it, no other does, each stands after a long start
      code, and what makes it a keyframe is an IDR slice or a parameter set. */
  ghost predicate MadeOf(p: Picture, g: seq<Nal>) {
    && g != [] && Closes(g[|g| - 1]) && (forall i :: 0 <= i < |g| - 1 ==> !Closes(g[i]))
    && p.data == Flat(seq(|g|, i requires 0 <= i < |g| => [0, 0, 0, 1] + g[i]))
    && (p.keyframe <==> OfType(g[|g| - 1], 5) || exists u :: u in g && (OfType(u, 7) || OfType(u, 8)))
  }

  lemma PictureIsMadeOf(g: seq<Nal>)
    requires IsGroup(g)
    ensures MadeOf(PictureOf(g), g)
  {
    var last := g[|g| - 1];
    ClosesIsSlice(last);
    TypeIsOfType(last, 5);
    forall i | 0 <= i < |g| - 1
      ensures !Closes(g[i])
    {
      ClosesIsSlice(g[i]);
      assert g[..|g| - 1][i] == g[i];
    }
    forall u | u in g
      ensures IsParameterSet(u) <==> OfType(u, 7) || OfType(u, 8)
    {
      TypeIsOfType(u, 7);
      TypeIsOfType(u, 8);
    }
    RenderedIsFlat(g);
  }

  lemma {:induction false} RenderedIsFlat(g: seq<Nal>)
    ensures Rendered(g) == Flat(seq(|g|, i requires 0 <= i < |g| => [0, 0, 0, 1] + g[i]))
    decreases |g|
  {
    var coded := seq(|g|, i requires 0 <= i < |g| => [0, 0, 0, 1] + g[i]);
    if g != [] {
      var init, last := g[..|g| - 1], g[|g| - 1];
      RenderedIsFlat(init);
      assert coded[..|g| - 1] == seq(|init|, i requires 0 <= i < |init| => [0, 0, 0, 1] + init[i]);
      LastApart(coded);
      FlatSnoc(coded[..|g| - 1], [0, 0, 0, 1] + last);
      Associative(Rendered(init), LONG_CODE, last);
    }
  }

  // ------------------------------------------------------------------ round trips

  /** Any clean units, written with any start codes and padding and read in any chunks, come back in order, each
      picture holding the units up to and including its slice. */
  lemma RoundTrip(lead: nat, units: seq<Nal>, pads: seq<nat>, chunks: seq<seq<Byte>>)
    requires |units| == |pads| && AllClean(units) && Pads(pads) && lead >= 2
    requires Flat(chunks) == Written(lead, units, pads)
    ensures var (groups, tail) := Groups(units);
            && FeedAll(INITIAL, chunks).1 == Pictures(groups)
            && (units != [] ==> FeedAll(INITIAL, chunks).0 == State([], true, Rendered(tail), HasParameters(tail)))
  {
    var data := Written(lead, units, pads);
    ChunkInvariance(INITIAL, chunks);
    assert INITIAL.pending + data == data;
    FirstCodeAfter([], lead, Body(units, pads));
    assert [] + data == data;
    CutBody(units, pads);
    AbsorbGroups([], units, []);
    assert [] + units == units;
    assert [] + Pictures(Groups(units).0) == Pictures(Groups(units).0);
  }

  /** The same in bytes alone: the units are cut after each that closes a picture and nowhere else, and picture by
      picture what comes out is made of what was written. */
  lemma PicturesAreTheUnits(lead: nat, units: seq<Nal>, pads: seq<nat>, chunks: seq<seq<Byte>>)
    returns (groups: seq<seq<Nal>>, tail: seq<Nal>)
    requires |units| == |pads| && AllClean(units) && Pads(pads) && lead >= 2
    requires Flat(chunks) == Written(lead, units, pads)
    ensures Flat(groups) + tail == units && forall i :: 0 <= i < |tail| ==> !Closes(tail[i])
    ensures var pictures := FeedAll(INITIAL, chunks).1;
            |pictures| == |groups| && forall i :: 0 <= i < |groups| ==> MadeOf(pictures[i], groups[i])
  {
    RoundTrip(lead, units, pads, chunks);
    groups, tail := Groups(units).0, Groups(units).1;
    forall i | 0 <= i < |groups|
      ensures MadeOf(PictureOf(groups[i]), groups[i])
    {
      PictureIsMadeOf(groups[i]);
    }
    forall i | 0 <= i < |tail|
      ensures !Closes(tail[i])
    {
      ClosesIsSlice(tail[i]);
    }
  }

  /** A picture's own bytes are such a stream, all of it long start codes, waiting for the next one. */
  lemma {:induction false} RenderedIsWritten(units: seq<Nal>, k: nat)
    requires units != []
    ensures Rendered(units) + StartCode(k) == Written(3, units, Longs(|units| - 1) + [k])
    decreases |units|
  {
    var n := |units| - 1;
    var u := units[n];
    LastApart(units);
    if n == 0 {
      OneRendered(u, k);
      assert Longs(0) + [k] == [k];
    } else {
      RenderedIsWritten(units[..n], 3);
      OneMoreWritten(units[..n], Longs(n), u, k);
    }
  }

  /** Long start codes between units. */
  ghost function Longs(n: nat): (pads: seq<nat>)
    ensures |pads| == n && forall i :: 0 <= i < n ==> pads[i] == 3
  {
    if n == 0 then [] else Longs(n - 1) + [3]
  }

  lemma OneMoreWritten(units: seq<Nal>, pads: seq<nat>, u: Nal, k: nat)
    requires units != [] && |units| == |pads| && Rendered(units) + StartCode(3) == Written(3, units, pads)
    ensures Rendered(units + [u]) + StartCode(k) == Written(3, units + [u], pads + [k])
  {
    assert StartCode(3) == LONG_CODE;
    RenderedSnoc(units, u);
    BodySnoc(units, pads, u, k);
    Associative(Rendered(units) + LONG_CODE, u, StartCode(k));
    Associative(StartCode(3), Body(units, pads), u + StartCode(k));
  }

  lemma OneRendered(u: Nal, k: nat)
    ensures Rendered([u]) + StartCode(k) == StartCode(3) + Body([u], [k])
  {
    assert StartCode(3) == LONG_CODE;
    assert [u][..0] == [] && [u][1..] == [] && [k][1..] == [];
    assert Rendered([u]) == LONG_CODE + u;
    assert Body([u], [k]) == u + StartCode(k);
  }

  lemma {:induction false} BodySnoc(units: seq<Nal>, pads: seq<nat>, u: Nal, k: nat)
    requires |units| == |pads|
    ensures Body(units + [u], pads + [k]) == Body(units, pads) + (u + StartCode(k))
    decreases |units|
  {
    if units == [] {
      assert units + [u] == [u] && pads + [k] == [k];
    } else {
      assert (units + [u])[1..] == units[1..] + [u] && (pads + [k])[1..] == pads[1..] + [k];
      BodySnoc(units[1..], pads[1..], u, k);
    }
  }

  /** Parsing what the parser produced gives the same picture again. */
  lemma PictureReparses(g: seq<Nal>, k: nat)
    requires AllClean(g) && IsGroup(g) && k >= 2
    ensures Fed(INITIAL, PictureOf(g).data + StartCode(k)).1 == [PictureOf(g)]
  {
    var data := Rendered(g) + StartCode(k);
    RenderedIsWritten(g, k);
    assert Flat([data]) == data by { assert data + [] == data; }
    RoundTrip(3, g, Longs(|g| - 1) + [k], [data]);
    ChunkInvariance(INITIAL, [data]);
    GroupsOfGroup(g);
  }

  lemma GroupsOfGroup(g: seq<Nal>)
    requires IsGroup(g)
    ensures Groups(g) == ([g], []) && Pictures([g]) == [PictureOf(g)]
  {
    var w, u := g[..|g| - 1], g[|g| - 1];
    LastApart(g);
    GroupsOfPrefix(w, u, []);
    PicturesCons(g, []);
    assert [u] + [] == [u] && [g] + [] == [g];
  }

  // ------------------------------------------------------------------ any stream at all

  ghost predicate CleanOrEmpty(units: seq<Nal>) { forall i :: 0 <= i < |units| ==> units[i] == [] || Clean(units[i]) }

  /** What is cut out of any bytes at a first start code, and trimmed, is a clean unit or none. */
  lemma CutUnitIsClean(data: seq<Byte>)
    requires FirstCode(data) < |data|
    ensures var u := Trimmed(data[..FirstCode(data)]); u == [] || Clean(u)
  {
    var f := FirstCode(data);
    var u := Trimmed(data[..f]);
    forall i | 0 <= i < |u| - 2
      ensures !(u[i] == 0 && u[i + 1] == 0 && u[i + 2] == 1)
    {
      NoCodeInPrefix(u, data, i);
    }
  }

  lemma NoCodeInPrefix(u: seq<Byte>, data: seq<Byte>, i: nat)
    requires u <= data && !CodeAt(data, i)
    ensures !CodeAt(u, i)
  {
  }

  lemma {:induction false} CutIsClean(data: seq<Byte>)
    ensures CleanOrEmpty(Cut(data).0)
    decreases |data|
  {
    var f := FirstCode(data);
    if f < |data| {
      CutUnitIsClean(data);
      CutIsClean(data[f + 3..]);
    }
  }

  ghost function NonEmpty(units: seq<Nal>): seq<Nal> {
    if units == [] then [] else (if units[0] != [] then [units[0]] else []) + NonEmpty(units[1..])
  }

  lemma {:induction false} NonEmptyIsClean(units: seq<Nal>)
    requires CleanOrEmpty(units)
    ensures AllClean(NonEmpty(units))
    decreases |units|
  {
    if units != [] {
      assert CleanOrEmpty(units[1..]);
      NonEmptyIsClean(units[1..]);
    }
  }

  /** Empty units leave no trace. */
  lemma {:induction false} AbsorbNonEmpty(acc: Acc, units: seq<Nal>)
    ensures AbsorbAll(acc, units) == AbsorbAll(acc, NonEmpty(units))
    decreases |units|
  {
    if units != [] {
      var rest := units[1..];
      AbsorbNonEmpty(Absorb(acc, units[0]), rest);
      if units[0] == [] {
        assert NonEmpty(units) == NonEmpty(rest);
      } else {
        assert NonEmpty(units)[0] == units[0] && NonEmpty(units)[1..] == NonEmpty(rest);
      }
    }
  }

  /** Every group of clean units is clean. */
  lemma {:induction false} GroupsAreClean(units: seq<Nal>)
    requires AllClean(units)
    ensures forall i :: 0 <= i < |Groups(units).0| ==> AllClean(Groups(units).0[i])
    decreases |units|
  {
    if units != [] {
      assert Clean(units[0]);
      GroupsAreClean(units[1..]);
    }
  }

  /** The pictures of any stream, clean or not, are those of the groups of some clean units. */
  lemma PicturesOfAnyStream(chunks: seq<seq<Byte>>) returns (units: seq<Nal>)
    ensures AllClean(units) && FeedAll(INITIAL, chunks).1 == Pictures(Groups(units).0)
  {
    var data := Flat(chunks);
    ChunkInvariance(INITIAL, chunks);
    assert INITIAL.pending + data == data;
    var cut := CutBuffer(false, data).0;
    BufferIsClean(data);
    units := NonEmpty(cut);
    NonEmptyIsClean(cut);
    AbsorbNonEmpty(Acc([], false, []), cut);
    AbsorbedFromNothing(units);
  }

  lemma BufferIsClean(data: seq<Byte>)
    ensures CleanOrEmpty(CutBuffer(false, data).0)
  {
    if FirstCode(data) < |data| { CutIsClean(data[FirstCode(data) + 3..]); }
  }

  lemma AbsorbedFromNothing(units: seq<Nal>)
    requires AllClean(units)
    ensures AbsorbAll(Acc([], false, []), units).out == Pictures(Groups(units).0)
  {
    AbsorbGroups([], units, []);
    assert [] + units == units && [] + Pictures(Groups(units).0) == Pictures(Groups(units).0);
  }

  /** Whatever bytes are fed to the parser, in whatever pieces, each picture it returns parses, closed by a start code,
      to that picture and no other. */
  lemma EveryPictureReparses(chunks: seq<seq<Byte>>, i: nat, k: nat)
    requires i < |FeedAll(INITIAL, chunks).1| && k >= 2
    ensures var p := FeedAll(INITIAL, chunks).1[i]; Fed(INITIAL, p.data + StartCode(k)).1 == [p]
  {
    var units := PicturesOfAnyStream(chunks);
    GroupsAreClean(units);
    PictureReparses(Groups(units).0[i], k);
  }
}
