/** Packing CSS units, in order, into chunks between a minimum and a maximum size. */
module CssChunks {
  import opened Texts
  import opened CssUnits

  const DEFAULT_MIN: int := 4096
  const DEFAULT_MAX: int := 65536

  /** The length of a code point in UTF-8. */
  function Utf8(c: char): nat {
    if c as int < 0x80 then 1 else if c as int < 0x800 then 2 else if c as int < 0x10000 then 3 else 4
  }

  /** The length of a text in bytes. */
  function Size(s: string): nat {
    if s == "" then 0 else Utf8(s[0]) + Size(s[1..])
  }

  function Total(units: seq<string>): nat {
    if units == [] then 0 else Size(units[0]) + Total(units[1..])
  }

  lemma {:induction false} TotalAppend(a: seq<string>, b: seq<string>)
    ensures Total(a + b) == Total(a) + Total(b)
  {
    if a == [] {
      assert a + b == b;
    } else {
      assert (a + b)[1..] == a[1..] + b;
      TotalAppend(a[1..], b);
    }
  }

  lemma TotalOne(u: string)
    ensures Total([u]) == Size(u)
  {
    assert Total([u]) == Size(u) + Total([]);
  }

  /** A chunk respects the limit; a single unit may be larger than it. */
  ghost predicate Fits(g: seq<string>, max: int) {
    g != [] && (|g| > 1 ==> Total(g) <= max)
  }

  /** The units in order, in chunks that respect the limit. */
  ghost predicate Grouping(gs: seq<seq<string>>, units: seq<string>, max: int) {
    Flatten(gs) == units && forall i :: 0 <= i < |gs| ==> Fits(gs[i], max)
  }

  // ---------------------------------------------------------------- the packing loop

  /** What the packing loop adds to its chunks when `current` is the open chunk and `rest` is still to come. */
  function Packed(current: seq<string>, rest: seq<string>, max: int): seq<seq<string>>
    decreases |rest|
  {
    if rest == [] then (if current == [] then [] else [current])
    else if current != [] && Total(current) + Size(rest[0]) > max then [current] + Packed([rest[0]], rest[1..], max)
    else Packed(current + [rest[0]], rest[1..], max)
  }

  method Pack(units: seq<string>, max: int) returns (chunks: seq<seq<string>>)
    requires forall i :: 0 <= i < |units| ==> units[i] != ""
    ensures chunks == Packed([], units, max)
    ensures Grouping(chunks, units, max)
    ensures forall gs :: Grouping(gs, units, max) ==> |chunks| <= |gs|
  {
    chunks := [];
    var current: seq<string> := [];
    var currentSize := 0;
    for i := 0 to |units|
      invariant currentSize == Total(current)
      invariant current != [] ==> currentSize > 0
      invariant chunks + Packed(current, units[i..], max) == Packed([], units, max)
    {
      var unit := units[i];
      assert units[i..][0] == unit && units[i..][1..] == units[i + 1..];
      if currentSize > 0 && currentSize + Size(unit) > max {
        Associative(chunks, [current], Packed([unit], units[i + 1..], max));
        chunks := chunks + [current];
        current := [];
        currentSize := 0;
        assert [] + [unit] == [unit];
      }
      TotalAppend(current, [unit]);
      TotalOne(unit);
      current := current + [unit];
      currentSize := currentSize + Size(unit);
    }
    if current != [] {
      chunks := chunks + [current];
    } else {
      assert chunks + [] == chunks;
    }
    PackedIsGrouping([], units, max);
    assert [] + units == units;
    forall gs | Grouping(gs, units, max) ensures |chunks| <= |gs| {
      FewestChunks(gs, units, max);
    }
  }

  lemma {:induction false} PackedIsGrouping(current: seq<string>, rest: seq<string>, max: int)
    requires current != [] ==> Fits(current, max)
    ensures Grouping(Packed(current, rest, max), current + rest, max)
    decreases |rest|
  {
    if rest == [] {
      assert current + rest == current;
      if current != [] { FlattenOne(current); }
    } else {
      TotalAppend(current, [rest[0]]);
      TotalOne(rest[0]);
      assert current + ([rest[0]] + rest[1..]) == (current + [rest[0]]) + rest[1..];
      assert [rest[0]] + rest[1..] == rest;
      if current != [] && Total(current) + Size(rest[0]) > max {
        PackedIsGrouping([rest[0]], rest[1..], max);
      } else {
        PackedIsGrouping(current + [rest[0]], rest[1..], max);
      }
    }
  }

  // ---------------------------------------------------------------- fewest chunks

  /** A shorter open chunk never costs more. */
  lemma {:induction false} ShorterOpenChunk(extra: seq<string>, current: seq<string>, rest: seq<string>, max: int)
    ensures |Packed(current, rest, max)| <= |Packed(extra + current, rest, max)|
    decreases |rest|, 1
  {
    if rest == [] {
    } else {
      var u, more := rest[0], rest[1..];
      TotalAppend(extra, current);
      assert (extra + current) + [u] == extra + (current + [u]);
      if extra + current != [] && Total(extra + current) + Size(u) > max {
        if current == [] {
          assert current + [u] == [u];
        } else if Total(current) + Size(u) <= max {
          OneMoreChunk(current, [u], more, max);
        }
      } else {
        ShorterOpenChunk(extra, current + [u], more, max);
      }
    }
  }

  /** Starting a chunk in the middle of an open one costs at most one chunk. */
  lemma {:induction false} OneMoreChunk(before: seq<string>, current: seq<string>, rest: seq<string>, max: int)
    requires current != []
    ensures |Packed(before + current, rest, max)| <= 1 + |Packed(current, rest, max)|
    decreases |rest|, 0
  {
    if rest != [] {
      var u, more := rest[0], rest[1..];
      TotalAppend(before, current);
      assert (before + current) + [u] == before + (current + [u]);
      if Total(before + current) + Size(u) <= max {
        OneMoreChunk(before, current + [u], more, max);
      } else if Total(current) + Size(u) <= max {
        ShorterOpenChunk(current, [u], more, max);
      }
    }
  }

  lemma {:induction false} AbsorbFirst(current: seq<string>, h: seq<string>, rest: seq<string>, max: int)
    requires Fits(current + h, max)
    ensures Packed(current, h + rest, max) == Packed(current + h, rest, max)
    decreases |h|
  {
    if h == [] {
      assert h + rest == rest && current + h == current;
    } else {
      var u := h[0];
      assert (h + rest)[0] == u && (h + rest)[1..] == h[1..] + rest;
      assert (current + [u]) + h[1..] == current + h;
      TotalAppend(current + [u], h[1..]);
      TotalAppend(current, [u]);
      TotalOne(u);
      AbsorbFirst(current + [u], h[1..], rest, max);
    }
  }

  /** No grouping within the limit uses fewer chunks than the packing loop. */
  lemma {:induction false} FewestChunks(gs: seq<seq<string>>, units: seq<string>, max: int)
    requires Grouping(gs, units, max)
    ensures |Packed([], units, max)| <= |gs|
    decreases |gs|
  {
    if gs != [] {
      var h, rest := gs[0], Flatten(gs[1..]);
      FewestChunks(gs[1..], rest, max);
      assert [] + h == h;
      AbsorbFirst([], h, rest, max);
      if rest != [] {
        assert [] + [rest[0]] == [rest[0]];
        TotalAppend(h, [rest[0]]);
        if Total(h) + Size(rest[0]) <= max {
          OneMoreChunk(h, [rest[0]], rest[1..], max);
        }
      }
    }
  }

  // ---------------------------------------------------------------- rebalancing

  /** Units move from the end of the donor while the last chunk is short, as long as neither limit is broken. */
  predicate Moves(donor: seq<string>, last: seq<string>, min: int, max: int) {
    |donor| > 1 && Total(last) < min
    && Total(last) + Size(donor[|donor| - 1]) <= max
    && Total(donor) - Size(donor[|donor| - 1]) >= min
  }

  /** The outcome: `k` units stay, the rest moved in order; every move was needed and allowed, and one more is not. */
  ghost predicate Balanced(donor: seq<string>, last: seq<string>, k: nat, min: int, max: int) {
    && k <= |donor|
    && (forall j :: k < j <= |donor| ==> Moves(donor[..j], donor[j..] + last, min, max))
    && !Moves(donor[..k], donor[k..] + last, min, max)
  }

  method Rebalance(chunks: seq<seq<string>>, min: int, max: int) returns (out: seq<seq<string>>, ghost k: nat)
    requires |chunks| > 1
    ensures |out| == |chunks| && out[..|out| - 2] == chunks[..|chunks| - 2]
    ensures var donor, last := chunks[|chunks| - 2], chunks[|chunks| - 1];
            Balanced(donor, last, k, min, max) && out[|out| - 2] == donor[..k] && out[|out| - 1] == donor[k..] + last
  {
    out := chunks;
    var previous, last := |chunks| - 2, |chunks| - 1;
    ghost var donor := chunks[previous];
    k := |donor|;
    assert donor[..k] == donor && donor[k..] + chunks[last] == chunks[last];
    while |out[previous]| > 1 && Total(out[last]) < min
      invariant |out| == |chunks| && out[..previous] == chunks[..previous]
      invariant k <= |donor| && out[previous] == donor[..k] && out[last] == donor[k..] + chunks[last]
      invariant forall j :: k < j <= |donor| ==> Moves(donor[..j], donor[j..] + chunks[last], min, max)
      decreases k
    {
      var unitIndex := |out[previous]| - 1;
      var unit := out[previous][unitIndex];
      if Total(out[last]) + Size(unit) > max || Total(out[previous]) - Size(unit) < min {
        break;
      }
      out := out[previous := out[previous][..unitIndex]][last := [unit] + out[last]];
      assert donor[..k][..unitIndex] == donor[..k - 1];
      assert [unit] + (donor[k..] + chunks[last]) == donor[k - 1..] + chunks[last];
      k := k - 1;
    }
  }

  lemma TotalLast(s: seq<string>)
    requires s != []
    ensures Total(s) == Total(s[..|s| - 1]) + Size(s[|s| - 1])
  {
    assert s == s[..|s| - 1] + [s[|s| - 1]];
    TotalAppend(s[..|s| - 1], [s[|s| - 1]]);
    TotalOne(s[|s| - 1]);
  }

  /** Rebalancing keeps the units in order and within the limit, and never leaves a changed donor below the minimum;
      at the end the last chunk is large enough, or the next move would break a limit. */
  lemma BalancedChunks(donor: seq<string>, last: seq<string>, k: nat, min: int, max: int)
    requires Fits(donor, max) && Fits(last, max)
    requires Balanced(donor, last, k, min, max)
    ensures donor[..k] + (donor[k..] + last) == donor + last
    ensures Fits(donor[..k], max) && Fits(donor[k..] + last, max)
    ensures k < |donor| ==> Total(donor[..k]) >= min
    ensures Total(donor[k..] + last) >= min || k == 1
              || Total(donor[k..] + last) + Size(donor[k - 1]) > max || Total(donor[..k - 1]) < min
  {
    assert donor == donor[..k] + donor[k..];
    if k < |donor| {
      LastMove(donor, last, k, min, max);
    } else {
      assert donor[..k] == donor && donor[k..] + last == last;
    }
    TotalLast(donor[..k]);
    assert donor[..k][..k - 1] == donor[..k - 1];
  }

  lemma LastMove(donor: seq<string>, last: seq<string>, k: nat, min: int, max: int)
    requires Fits(donor, max) && k < |donor| && Moves(donor[..k + 1], donor[k + 1..] + last, min, max)
    ensures k > 0 && Fits(donor[..k], max) && Fits(donor[k..] + last, max) && Total(donor[..k]) >= min
  {
    var moved := donor[..k + 1];
    assert moved[..k] == donor[..k];
    TotalLast(moved);
    assert donor == donor[..k] + donor[k..];
    TotalAppend(donor[..k], donor[k..]);
    assert donor[k..] + last == [donor[k]] + (donor[k + 1..] + last);
    TotalAppend([donor[k]], donor[k + 1..] + last);
    TotalOne(donor[k]);
  }

  // ---------------------------------------------------------------- the whole function

  function JoinedPart(part: string): string {
    if Blank(part) then "" else if part[|part| - 1] == '\n' then part else part + "\n"
  }

  function JoinedParts(parts: seq<string>): string {
    if parts == [] then "" else JoinedPart(parts[0]) + JoinedParts(parts[1..])
  }

  function AllUnits(parts: seq<string>): seq<string> {
    if parts == [] then [] else Units(parts[0]) + AllUnits(parts[1..])
  }

  function Minimum(minSize: int): int {
    if minSize <= 0 then DEFAULT_MIN else minSize
  }

  function Maximum(minSize: int, maxSize: int): int {
    var m := if maxSize <= 0 then DEFAULT_MAX else maxSize;
    if m < Minimum(minSize) then Minimum(minSize) else m
  }

  function ChunkTexts(gs: seq<seq<string>>): seq<string> {
    if gs == [] then [] else [Flatten(gs[0])] + ChunkTexts(gs[1..])
  }

  lemma {:induction false} ChunkTextsJoin(gs: seq<seq<string>>)
    ensures Flatten(ChunkTexts(gs)) == Flatten(Flatten(gs))
  {
    if gs != [] {
      ChunkTextsJoin(gs[1..]);
      FlattenAppend(gs[0], Flatten(gs[1..]));
      FlattenAppend([Flatten(gs[0])], ChunkTexts(gs[1..]));
      FlattenOne(Flatten(gs[0]));
    }
  }

  lemma UnitsNotEmpty(css: string)
    ensures forall i :: 0 <= i < |Units(css)| ==> Units(css)[i] != ""
  {
    forall i | 0 <= i < |Units(css)| ensures Units(css)[i] != "" {
      var n := EmitFrom(Pieces(START, "", css), i);
    }
  }

  lemma {:induction false} AllUnitsAppend(a: seq<string>, b: seq<string>)
    ensures AllUnits(a + b) == AllUnits(a) + AllUnits(b)
  {
    if a == [] {
      assert a + b == b;
    } else {
      AllUnitsAppend(a[1..], b);
      Associative(Units(a[0]), AllUnits(a[1..]), AllUnits(b));
      assert (a + b)[1..] == a[1..] + b;
    }
  }

  /** The text without its white space. */
  function Solid(s: string): string {
    if s == "" then "" else (if IsSpace(s[0]) then "" else [s[0]]) + Solid(s[1..])
  }

  lemma {:induction false} SolidConcat(a: string, b: string)
    ensures Solid(a + b) == Solid(a) + Solid(b)
  {
    if a == "" {
      assert a + b == b;
    } else {
      assert (a + b)[0] == a[0] && (a + b)[1..] == a[1..] + b;
      SolidConcat(a[1..], b);
      Associative(if IsSpace(a[0]) then "" else [a[0]], Solid(a[1..]), Solid(b));
    }
  }

  lemma {:induction false} SolidBlank(s: string)
    requires Blank(s)
    ensures Solid(s) == ""
  {
    if s != "" { SolidBlank(s[1..]); }
  }

  lemma {:induction false} SolidUnits(gaps: seq<string>, words: seq<string>, units: seq<string>)
    requires |gaps| == |words| + 1 && AllBlank(gaps) && |units| == |words|
    requires forall k :: 0 <= k < |units| ==> units[k] == words[k] + "\n"
    ensures Solid(Interleaved(gaps, words)) == Solid(Flatten(units))
  {
    SolidBlank(gaps[0]);
    if words != [] {
      var rest := Interleaved(gaps[1..], words[1..]);
      SolidUnits(gaps[1..], words[1..], units[1..]);
      SolidConcat(gaps[0], words[0] + rest);
      SolidConcat(words[0], rest);
      SolidConcat(units[0], Flatten(units[1..]));
      SolidConcat(words[0], "\n");
      SolidBlank("\n");
      assert Solid(words[0]) + "" == Solid(words[0]);
    }
  }

  lemma {:induction false} SolidParts(parts: seq<string>)
    ensures Solid(JoinedParts(parts)) == Solid(Flatten(parts)) == Solid(Flatten(AllUnits(parts)))
  {
    if parts != [] {
      var part, rest := parts[0], parts[1..];
      SolidParts(rest);
      SolidConcat(JoinedPart(part), JoinedParts(rest));
      SolidConcat(part, Flatten(rest));
      SolidConcat(part, "\n");
      SolidBlank("\n");
      assert Solid(part) + "" == Solid(part);
      if Blank(part) { SolidBlank(part); }
      var gaps, words := UnitsAreTheText(part);
      SolidUnits(gaps, words, Units(part));
      FlattenAppend(Units(part), AllUnits(rest));
      SolidConcat(Flatten(Units(part)), Flatten(AllUnits(rest)));
    }
  }

  /** Parts that are not blank and end with a line feed are joined as they are. */
  lemma {:induction false} JoinedAsTheyAre(parts: seq<string>)
    requires forall i :: 0 <= i < |parts| ==> !Blank(parts[i]) && parts[i][|parts[i]| - 1] == '\n'
    ensures JoinedParts(parts) == Flatten(parts)
  {
    if parts != [] {
      var part, rest := parts[0], parts[1..];
      assert forall i :: 0 <= i < |rest| ==> rest[i] == parts[i + 1];
      JoinedAsTheyAre(rest);
      assert JoinedPart(part) == part;
    }
  }

  method JoinParts(parts: seq<string>) returns (full: string)
    ensures full == JoinedParts(parts)
  {
    full := "";
    for i := 0 to |parts|
      invariant full + JoinedParts(parts[i..]) == JoinedParts(parts)
    {
      var part := parts[i];
      assert parts[i..][0] == part && parts[i..][1..] == parts[i + 1..];
      var a, b := TrimParts(part);
      Associative(full, JoinedPart(part), JoinedParts(parts[i + 1..]));
      if TrimSpace(part) == "" {
        assert full + "" == full;
        continue;
      }
      Associative(full, part, "\n");
      full := full + part;
      if part[|part| - 1] != '\n' {
        full := full + "\n";
      }
    }
    assert full + "" == full;
  }

  method CollectUnits(parts: seq<string>) returns (units: seq<string>)
    ensures units == AllUnits(parts)
    ensures forall i :: 0 <= i < |units| ==> units[i] != ""
  {
    units := [];
    for i := 0 to |parts|
      invariant units == AllUnits(parts[..i])
      invariant forall j :: 0 <= j < |units| ==> units[j] != ""
    {
      var more := SplitCSSUnits(parts[i]);
      UnitsNotEmpty(parts[i]);
      AllUnitsAppend(parts[..i], [parts[i]]);
      assert AllUnits([parts[i]]) == Units(parts[i]) + AllUnits([]);
      assert parts[..i] + [parts[i]] == parts[..i + 1];
      units := units + more;
    }
    assert parts[..|parts|] == parts;
  }

  /** The groups after rebalancing, when `k` units of the donor stay. */
  ghost predicate Rebalanced(packed: seq<seq<string>>, groups: seq<seq<string>>, k: nat, min: int, max: int) {
    var n := |packed|;
    if n <= 1 then groups == packed
    else
      && |groups| == n && groups[..n - 2] == packed[..n - 2]
      && Balanced(packed[n - 2], packed[n - 1], k, min, max)
      && groups[n - 2] == packed[n - 2][..k]
      && groups[n - 1] == packed[n - 2][k..] + packed[n - 1]
  }

  lemma RebalancedGrouping(packed: seq<seq<string>>, groups: seq<seq<string>>, k: nat, units: seq<string>, min: int, max: int)
    requires Grouping(packed, units, max) && Rebalanced(packed, groups, k, min, max)
    ensures Grouping(groups, units, max)
  {
    var n := |packed|;
    if n > 1 {
      var donor, last := packed[n - 2], packed[n - 1];
      BalancedChunks(donor, last, k, min, max);
      assert packed == packed[..n - 2] + [donor, last];
      assert groups == packed[..n - 2] + [donor[..k], donor[k..] + last];
      FlattenAppend(packed[..n - 2], [donor, last]);
      FlattenAppend(packed[..n - 2], [donor[..k], donor[k..] + last]);
      FlattenTwo(donor, last);
      FlattenTwo(donor[..k], donor[k..] + last);
    }
  }

  lemma FlattenTwo(a: seq<string>, b: seq<string>)
    ensures Flatten([a, b]) == a + b
  {
    FlattenOne(b);
    assert [a, b][1..] == [b];
  }

  /** `groups` is the rebalanced packing of `units`: in order, within the limit, as few as possible. */
  ghost predicate BestPacking(groups: seq<seq<string>>, k: nat, units: seq<string>, min: int, max: int) {
    && Grouping(groups, units, max)
    && Rebalanced(Packed([], units, max), groups, k, min, max)
    && forall gs :: Grouping(gs, units, max) ==> |groups| <= |gs|
  }

  /** The texts of a best packing. */
  ghost predicate BestChunks(chunks: seq<string>, units: seq<string>, min: int, max: int) {
    exists groups, k :: BestPacking(groups, k, units, min, max) && chunks == ChunkTexts(groups)
  }

  method PackUnits(units: seq<string>, min: int, max: int) returns (chunks: seq<string>)
    requires forall i :: 0 <= i < |units| ==> units[i] != ""
    ensures BestChunks(chunks, units, min, max) && Flatten(chunks) == Flatten(units)
  {
    ghost var k: nat := 0;
    var packed := Pack(units, max);
    var balanced := packed;
    if |packed| > 1 {
      balanced, k := Rebalance(packed, min, max);
    }
    RebalancedGrouping(packed, balanced, k, units, min, max);
    chunks := JoinChunks(balanced);
    ChunkTextsJoin(balanced);
    assert BestPacking(balanced, k, units, min, max);
  }

  /** Nothing for blank input, the whole text when it is not to be split or small enough, otherwise the best packing of the
      units. Nothing but white space is lost or added. */
  method BuildCSSChunks(parts: seq<string>, split: bool, minSize: int, maxSize: int) returns (chunks: seq<string>)
    ensures var full, max := JoinedParts(parts), Maximum(minSize, maxSize);
            if Blank(full) then chunks == []
            else if split && Size(full) > max && AllUnits(parts) != [] then
              BestChunks(chunks, AllUnits(parts), Minimum(minSize), max) && Flatten(chunks) == Flatten(AllUnits(parts))
            else chunks == [full]
    ensures Solid(Flatten(chunks)) == Solid(Flatten(parts))
  {
    var full := JoinParts(parts);
    var a, b := TrimParts(full);
    SolidParts(parts);
    FlattenOne(full);
    if TrimSpace(full) == "" {
      SolidBlank(full);
      return [];
    }
    if !split {
      return [full];
    }
    var min, max := minSize, maxSize;
    if min <= 0 { min := DEFAULT_MIN; }
    if max <= 0 { max := DEFAULT_MAX; }
    if max < min { max := min; }
    if Size(full) <= max {
      return [full];
    }
    var units := CollectUnits(parts);
    if |units| == 0 {
      return [full];
    }
    chunks := PackUnits(units, min, max);
  }

  method JoinChunks(chunks: seq<seq<string>>) returns (out: seq<string>)
    ensures out == ChunkTexts(chunks)
  {
    out := [];
    for i := 0 to |chunks|
      invariant out + ChunkTexts(chunks[i..]) == ChunkTexts(chunks)
    {
      assert chunks[i..][1..] == chunks[i + 1..];
      var text := Concatenate(chunks[i]);
      Associative(out, [text], ChunkTexts(chunks[i + 1..]));
      out := out + [text];
    }
    assert out + [] == out;
  }

  method Concatenate(chunk: seq<string>) returns (text: string)
    ensures text == Flatten(chunk)
  {
    text := "";
    for i := 0 to |chunk|
      invariant text + Flatten(chunk[i..]) == Flatten(chunk)
    {
      assert chunk[i..][1..] == chunk[i + 1..];
      Associative(text, chunk[i], Flatten(chunk[i + 1..]));
      text := text + chunk[i];
    }
    assert text + "" == text;
  }
}
