/** The text decoding of extract_tif_metadata: the binary tag 65331 is read as
    little-endian 16-bit words, turned into text two ways, and searched for the
    stage-position and time fields and for the optical-configuration (plane) names.

    The float decoding of the x, y and time fields (struct.unpack) is not modelled:
    a field is returned as the raw bytes struct.unpack would read. */
module TifMetadata {
  import opened Common

  type Byte = x: int | 0 <= x < 256

  const ConfigMarker: string := "sOpticalConfigName"
  const XMarker: string := "dXPos"
  const YMarker: string := "dYPos"
  const TimeMarker: string := "dTimeAbsolute"

  /** The string whose substrings select a tag (`tag.name in ('65331')`). */
  const SelectingName: string := "65331"

  // ---------------------------------------------------------------------------
  // Bytes to 16-bit words (lines 369 and 403-404)

  /** `v[start::2]` */
  function EveryOther(v: seq<Byte>, start: nat): (r: seq<Byte>)
    ensures |r| == (if start >= |v| then 0 else (|v| - start + 1) / 2)
    ensures forall k :: 0 <= k < |r| ==> r[k] == v[start + 2 * k]
    decreases |v| - start
  {
    if start >= |v| then [] else [v[start]] + EveryOther(v, start + 2)
  }

  /** `[a + b*0x100 for a, b in zip(lo, hi)]` */
  function PairWords(lo: seq<Byte>, hi: seq<Byte>): (w: seq<int>)
    ensures |w| == Min(|lo|, |hi|)
    ensures forall k :: 0 <= k < |w| ==> w[k] == lo[k] as int + 0x100 * hi[k] as int
  {
    if |lo| == 0 || |hi| == 0 then [] else [lo[0] + 0x100 * hi[0]] + PairWords(lo[1..], hi[1..])
  }

  /** infolist (and il): the words made of bytes 2k and 2k+1. */
  function Words(v: seq<Byte>): seq<int>
  {
    PairWords(EveryOther(v, 0), EveryOther(v, 1))
  }

  /** li: the words made of bytes 2k+1 and 2k+2. */
  function LaneWords(v: seq<Byte>): seq<int>
  {
    PairWords(EveryOther(v, 1), EveryOther(v, 2))
  }

  lemma WordsSpec(v: seq<Byte>)
    ensures |Words(v)| == |v| / 2
    ensures forall k :: 0 <= k < |v| / 2 ==> Words(v)[k] == v[2 * k] as int + 0x100 * v[2 * k + 1] as int
  {
  }

  lemma LaneWordsSpec(v: seq<Byte>)
    ensures |LaneWords(v)| == (if |v| == 0 then 0 else (|v| - 1) / 2)
    ensures forall k :: 0 <= k < |LaneWords(v)| ==> LaneWords(v)[k] == v[2 * k + 1] as int + 0x100 * v[2 * k + 2] as int
  {
  }

  /** Every word is an unsigned 16-bit value. */
  lemma WordsAreShorts(v: seq<Byte>)
    ensures forall k :: 0 <= k < |Words(v)| ==> 0 <= Words(v)[k] < 0x1_0000
    ensures forall k :: 0 <= k < |LaneWords(v)| ==> 0 <= LaneWords(v)[k] < 0x1_0000
  {
  }

  /** Each word split back into its low and its high byte. */
  function WordBytes(w: seq<int>): (b: seq<int>)
    ensures |b| == 2 * |w|
  {
    seq(2 * |w|, i requires 0 <= i < 2 * |w| => if i % 2 == 0 then w[i / 2] % 0x100 else w[i / 2] / 0x100)
  }

  lemma SplitWord(lo: Byte, hi: Byte)
    ensures (lo + 0x100 * hi) % 0x100 == lo && (lo + 0x100 * hi) / 0x100 == hi
  {
    var w := lo + 0x100 * hi;
    assert w == hi * 0x100 + lo;
  }

  lemma WordByteAt(v: seq<Byte>, i: nat)
    requires i < 2 * (|v| / 2)
    ensures WordBytes(Words(v))[i] == v[i]
  {
    WordsSpec(v);
    SplitWord(v[2 * (i / 2)], v[2 * (i / 2) + 1]);
  }

  /** Splitting the words gives back every byte of the tag but an odd last one. */
  lemma WordsRoundTrip(v: seq<Byte>)
    ensures WordBytes(Words(v)) == v[..2 * (|v| / 2)]
  {
    WordsSpec(v);
    var b := WordBytes(Words(v));
    var e := v[..2 * (|v| / 2)];
    assert |b| == |e|;
    forall i | 0 <= i < |b| ensures b[i] == e[i] {
      WordByteAt(v, i);
    }
  }

  // ---------------------------------------------------------------------------
  // Text (lines 371-379 and 407-415)

  /** A word in (64, 127) becomes that character, anything else a space. */
  function LetterOrSpace(w: int): char
  {
    if 64 < w < 127 then w as char else ' '
  }

  /** t_string */
  function TagText(words: seq<int>): (t: string)
    ensures |t| == |words|
  {
    if |words| == 0 then "" else TagText(words[..|words| - 1]) + [LetterOrSpace(words[|words| - 1])]
  }

  /** A character of the text is not a space exactly when its word is in (64, 127),
      and is then that word's character. */
  lemma {:induction false} TagTextSpec(words: seq<int>)
    ensures forall c :: 0 <= c < |words| ==>
      && (TagText(words)[c] != ' ' <==> 64 < words[c] < 127)
      && (TagText(words)[c] != ' ' ==> TagText(words)[c] as int == words[c])
  {
    if |words| > 0 {
      TagTextSpec(words[..|words| - 1]);
    }
  }

  method BuildTagText(words: seq<int>) returns (t: string)
    ensures t == TagText(words)
  {
    t := "";
    for c := 0 to |words|
      invariant t == TagText(words[..c])
    {
      if words[c] < 127 && words[c] > 64 {
        t := t + [words[c] as char];
      } else {
        t := t + " ";
      }
      assert words[..c + 1][..c] == words[..c];
    }
    assert words[..|words|] == words;
  }

  /** The two-lane pick: the first lane's character when printable, else the
      second lane's, else a space. */
  function PickChar(a: int, b: int): char
  {
    if 31 < a < 127 then a as char else if 31 < b < 127 then b as char else ' '
  }

  /** allchars, over zip(il, li). */
  function LaneText(il: seq<int>, li: seq<int>): (s: string)
    ensures |s| == Min(|il|, |li|)
  {
    LaneTextUpTo(il, li, Min(|il|, |li|))
  }

  /** The first n characters of allchars. */
  function LaneTextUpTo(il: seq<int>, li: seq<int>, n: nat): (s: string)
    requires n <= |il| && n <= |li|
    ensures |s| == n
  {
    if n == 0 then "" else LaneTextUpTo(il, li, n - 1) + [PickChar(il[n - 1], li[n - 1])]
  }

  lemma {:induction false} LaneTextUpToSpec(il: seq<int>, li: seq<int>, n: nat)
    requires n <= |il| && n <= |li|
    ensures forall c :: 0 <= c < n ==> LaneTextUpTo(il, li, n)[c] == PickChar(il[c], li[c])
  {
    if n > 0 {
      LaneTextUpToSpec(il, li, n - 1);
    }
  }

  /** Every character of allchars is printable ASCII, and it comes from the first
      lane whenever that lane is printable. */
  lemma LaneTextSpec(il: seq<int>, li: seq<int>)
    ensures forall c :: 0 <= c < Min(|il|, |li|) ==>
      && 32 <= LaneText(il, li)[c] as int < 127
      && (31 < il[c] < 127 ==> LaneText(il, li)[c] as int == il[c])
      && (!(31 < il[c] < 127) && 31 < li[c] < 127 ==> LaneText(il, li)[c] as int == li[c])
  {
    LaneTextUpToSpec(il, li, Min(|il|, |li|));
  }

  method BuildLaneText(il: seq<int>, li: seq<int>) returns (s: string)
    ensures s == LaneText(il, li)
  {
    var n := Min(|il|, |li|);
    s := "";
    for c := 0 to n
      invariant s == LaneTextUpTo(il, li, c)
    {
      if 31 < il[c] < 127 {
        s := s + [il[c] as char];
      } else if 31 < li[c] < 127 {
        s := s + [li[c] as char];
      } else {
        s := s + " ";
      }
    }
  }

  // ---------------------------------------------------------------------------
  // Finding a field (lines 383-396)

  predicate OccursAt(t: string, pat: string, i: int)
  {
    0 <= i && i + |pat| <= |t| && t[i..i + |pat|] == pat
  }

  function IndexFrom(t: string, pat: string, i: nat): (r: Option<nat>)
    ensures r.Some? ==> i <= r.value && OccursAt(t, pat, r.value)
    ensures r.Some? ==> forall j :: i <= j < r.value ==> !OccursAt(t, pat, j)
    ensures r.None? ==> forall j :: i <= j ==> !OccursAt(t, pat, j)
    decreases |t| - i
  {
    if i + |pat| > |t| then None
    else if t[i..i + |pat|] == pat then Some(i)
    else IndexFrom(t, pat, i + 1)
  }

  /** `t.index(pat)`: the first occurrence, or None for the ValueError. */
  function IndexOf(t: string, pat: string): (r: Option<nat>)
    ensures r.Some? ==> OccursAt(t, pat, r.value) && forall j :: 0 <= j < r.value ==> !OccursAt(t, pat, j)
    ensures r.None? <==> forall j :: !OccursAt(t, pat, j)
  {
    IndexFrom(t, pat, 0)
  }

  /** Why reading the metadata of a tag fails. */
  datatype MetadataError =
    | MarkerMissing(marker: string)  // ValueError from str.index
    | ShortField(marker: string)     // struct.error: fewer bytes than the format needs
    | NoNameAfterMarker              // IndexError: the last word is the marker

  /** `tag.value[p:p+n]` with p = 2 * text.index(marker) + offset, which
      struct.unpack accepts only when it holds exactly n bytes. Word c of the text
      starts at byte 2c. */
  function FieldBytes(v: seq<Byte>, text: string, marker: string, offset: nat, n: nat): Result<seq<Byte>, MetadataError>
  {
    match IndexOf(text, marker)
    case None => Err(MarkerMissing(marker))
    case Some(i) =>
      var window := PySlice(v, 2 * i + offset, 2 * i + offset + n);
      if |window| != n then Err(ShortField(marker)) else Ok(window)
  }

  /** A field is read exactly when its marker is in the text and the n bytes from
      2 * index + offset are all present, and it is then those bytes. */
  lemma FieldBytesSpec(v: seq<Byte>, text: string, marker: string, offset: nat, n: nat)
    requires n > 0
    ensures var r := FieldBytes(v, text, marker, offset, n);
      && (r.Ok? <==> IndexOf(text, marker).Some? && 2 * IndexOf(text, marker).value + offset + n <= |v|)
      && (r.Ok? ==> var p := 2 * IndexOf(text, marker).value + offset; r.value == v[p..p + n])
      && (r.Err? ==> r.error == (if IndexOf(text, marker).None? then MarkerMissing(marker) else ShortField(marker)))
  {
    if IndexOf(text, marker).Some? {
      var p := 2 * IndexOf(text, marker).value + offset;
      PySliceNonNegative(v, p, p + n);
    }
  }

  // ---------------------------------------------------------------------------
  // Collapsing runs of spaces (line 417) and splitting (line 419)

  /** `re.sub(' +', ' ', s)` */
  function CollapseSpaces(s: string): (r: string)
    ensures |r| <= |s| && (|r| == 0 <==> |s| == 0)
    ensures |s| > 0 ==> r[|r| - 1] == s[|s| - 1]
  {
    if |s| == 0 then ""
    else
      var r := CollapseSpaces(s[..|s| - 1]);
      if s[|s| - 1] == ' ' && |r| > 0 && r[|r| - 1] == ' ' then r else r + [s[|s| - 1]]
  }

  predicate NoDoubleSpace(s: string)
  {
    forall i :: 0 <= i < |s| - 1 ==> !(s[i] == ' ' && s[i + 1] == ' ')
  }

  /** The characters of s that are not spaces, in order. */
  function NonSpaces(s: string): string
  {
    if |s| == 0 then ""
    else if s[|s| - 1] == ' ' then NonSpaces(s[..|s| - 1])
    else NonSpaces(s[..|s| - 1]) + [s[|s| - 1]]
  }

  /** After collapsing no two spaces are adjacent. */
  lemma {:induction false} CollapseLeavesNoDoubleSpace(s: string)
    ensures NoDoubleSpace(CollapseSpaces(s))
  {
    if |s| > 0 {
      CollapseLeavesNoDoubleSpace(s[..|s| - 1]);
    }
  }

  /** Collapsing keeps every other character, in order. */
  lemma {:induction false} CollapseKeepsNonSpaces(s: string)
    ensures NonSpaces(CollapseSpaces(s)) == NonSpaces(s)
  {
    if |s| > 0 {
      var init := s[..|s| - 1];
      CollapseKeepsNonSpaces(init);
      var r := CollapseSpaces(init);
      if !(s[|s| - 1] == ' ' && |r| > 0 && r[|r| - 1] == ' ') {
        assert (r + [s[|s| - 1]])[..|r|] == r;
      }
    }
  }

  /** A string without adjacent spaces is left as it is. */
  lemma {:induction false} CollapseOfNoDoubleSpace(s: string)
    requires NoDoubleSpace(s)
    ensures CollapseSpaces(s) == s
  {
    if |s| > 0 {
      var init := s[..|s| - 1];
      assert NoDoubleSpace(init);
      CollapseOfNoDoubleSpace(init);
      if |s| >= 2 {
        assert !(s[|s| - 2] == ' ' && s[|s| - 1] == ' ');
      }
    }
  }

  lemma CollapseIdempotent(s: string)
    ensures CollapseSpaces(CollapseSpaces(s)) == CollapseSpaces(s)
  {
    CollapseLeavesNoDoubleSpace(s);
    CollapseOfNoDoubleSpace(CollapseSpaces(s));
  }

  predicate AllSpaces(s: string) { forall i :: 0 <= i < |s| ==> s[i] == ' ' }

  /** What follows a non-space is collapsed independently of what precedes it. */
  lemma {:induction false} CollapseConcat(x: string, b: string)
    requires |b| > 0 && b[0] != ' '
    ensures CollapseSpaces(x + b) == CollapseSpaces(x) + CollapseSpaces(b)
  {
    if |b| == 1 {
      assert (x + b)[..|x + b| - 1] == x;
      assert b[..0] == "";
    } else {
      var init := b[..|b| - 1];
      assert (x + b)[..|x + b| - 1] == x + init;
      CollapseConcat(x, init);
    }
  }

  /** A run of spaces that starts a new run becomes a single space. */
  lemma {:induction false} CollapseRun(a: string, sp: string)
    requires |sp| > 0 && AllSpaces(sp)
    requires |a| == 0 || a[|a| - 1] != ' '
    ensures CollapseSpaces(a + sp) == CollapseSpaces(a) + " "
  {
    if |sp| == 1 {
      assert (a + sp)[..|a|] == a;
    } else {
      var init := sp[..|sp| - 1];
      assert (a + sp)[..|a + sp| - 1] == a + init;
      CollapseRun(a, init);
    }
  }

  /** Every maximal run of spaces, however long, becomes exactly one space, so the
      word boundaries survive the collapse. */
  lemma CollapseKeepsWordBoundaries(a: string, sp: string, b: string)
    requires |sp| > 0 && AllSpaces(sp)
    requires |a| == 0 || a[|a| - 1] != ' '
    requires |b| == 0 || b[0] != ' '
    ensures CollapseSpaces(a + sp + b) == CollapseSpaces(a) + " " + CollapseSpaces(b)
  {
    CollapseRun(a, sp);
    if |b| > 0 {
      CollapseConcat(a + sp, b);
    } else {
      assert a + sp + b == a + sp;
    }
  }

  /** `s.split(" ")`: the pieces between single spaces, empty ones included. */
  function Split(s: string): (words: seq<string>)
    ensures |words| > 0
  {
    if |s| == 0 then [""]
    else
      var w := Split(s[..|s| - 1]);
      if s[|s| - 1] == ' ' then w + [""]
      else w[..|w| - 1] + [w[|w| - 1] + [s[|s| - 1]]]
  }

  /** `" ".join(words)` */
  function Join(words: seq<string>): string
    requires |words| > 0
  {
    if |words| == 1 then words[0] else Join(words[..|words| - 1]) + " " + words[|words| - 1]
  }

  lemma JoinExtendLast(words: seq<string>, x: string)
    requires |words| > 0
    ensures Join(words[..|words| - 1] + [words[|words| - 1] + x]) == Join(words) + x
  {
    var n := |words|;
    var ext := words[..n - 1] + [words[n - 1] + x];
    if n > 1 {
      assert ext[..n - 1] == words[..n - 1];
    }
  }

  /** Joining the pieces with spaces gives the string back. */
  lemma {:induction false} JoinSplit(s: string)
    ensures Join(Split(s)) == s
  {
    if |s| > 0 {
      var init := s[..|s| - 1];
      JoinSplit(init);
      var w := Split(init);
      if s[|s| - 1] == ' ' {
        assert (w + [""])[..|w|] == w;
      } else {
        JoinExtendLast(w, [s[|s| - 1]]);
      }
    }
  }

  predicate NoSpace(w: string) { forall i :: 0 <= i < |w| ==> w[i] != ' ' }

  /** No piece contains a space. */
  lemma {:induction false} SplitPiecesHaveNoSpace(s: string)
    ensures forall k :: 0 <= k < |Split(s)| ==> NoSpace(Split(s)[k])
  {
    if |s| > 0 {
      SplitPiecesHaveNoSpace(s[..|s| - 1]);
    }
  }

  function SpaceCount(s: string): nat { multiset(s)[' '] }

  /** There is one piece more than there are spaces. */
  lemma {:induction false} SplitCount(s: string)
    ensures |Split(s)| == SpaceCount(s) + 1
  {
    if |s| > 0 {
      var init := s[..|s| - 1];
      SplitCount(init);
      assert s == init + [s[|s| - 1]];
      assert multiset(s) == multiset(init) + multiset{s[|s| - 1]};
    }
  }

  /** Splitting after a space and a space-free word adds that word as a piece. */
  lemma {:induction false} SplitAppendWord(s: string, w: string)
    requires NoSpace(w)
    ensures Split(s + " " + w) == Split(s) + [w]
    decreases |w|
  {
    if |w| == 0 {
      assert s + " " + w == s + " ";
      assert (s + " ")[..|s|] == s;
    } else {
      var init := w[..|w| - 1];
      SplitAppendWord(s, init);
      var t := s + " " + w;
      assert t[..|t| - 1] == s + " " + init;
      assert t[|t| - 1] == w[|w| - 1];
      assert init + [w[|w| - 1]] == w;
    }
  }

  /** Splitting the joined piece list gives the pieces back, when none holds a space. */
  lemma {:induction false} SplitJoin(words: seq<string>)
    requires |words| > 0 && forall k :: 0 <= k < |words| ==> NoSpace(words[k])
    ensures Split(Join(words)) == words
    decreases |words|
  {
    var n := |words|;
    if n == 1 {
      SplitAppendWord("", words[0]);
      SplitOfSpaceFree(words[0]);
    } else {
      var init := words[..n - 1];
      SplitJoin(init);
      SplitAppendWord(Join(init), words[n - 1]);
      assert init + [words[n - 1]] == words;
    }
  }

  lemma {:induction false} SplitOfSpaceFree(w: string)
    requires NoSpace(w)
    ensures Split(w) == [w]
  {
    if |w| > 0 {
      SplitOfSpaceFree(w[..|w| - 1]);
      assert w[..|w| - 1] + [w[|w| - 1]] == w;
    }
  }

  // ---------------------------------------------------------------------------
  // Plane names (lines 424-432)

  /** Indices below n of the words equal to the configuration marker, ascending. */
  function MarkerPositions(words: seq<string>, n: nat): (idx: seq<nat>)
    requires n <= |words|
    ensures forall k :: 0 <= k < |idx| ==> idx[k] < n && words[idx[k]] == ConfigMarker
  {
    if n == 0 then []
    else if words[n - 1] == ConfigMarker then MarkerPositions(words, n - 1) + [n - 1]
    else MarkerPositions(words, n - 1)
  }

  /** MarkerPositions lists every marker below n, each once, in increasing order. */
  lemma {:induction false} MarkerPositionsComplete(words: seq<string>, n: nat)
    requires n <= |words|
    ensures forall k, l :: 0 <= k < l < |MarkerPositions(words, n)| ==>
      MarkerPositions(words, n)[k] < MarkerPositions(words, n)[l]
    ensures forall i :: 0 <= i < n && words[i] == ConfigMarker ==> i in MarkerPositions(words, n)
  {
    if n > 0 {
      MarkerPositionsComplete(words, n - 1);
    }
  }

  /** The word after each listed index. */
  function Following(words: seq<string>, idx: seq<nat>): seq<string>
  {
    seq(|idx|, k requires 0 <= k < |idx| => if idx[k] + 1 < |words| then words[idx[k] + 1] else "")
  }

  /** The word after each marker, in order; None for the IndexError raised (from
      inside the handler) when the last word is the marker. */
  function PlaneNames(words: seq<string>): Option<seq<string>>
  {
    if |words| > 0 && words[|words| - 1] == ConfigMarker then None
    else Some(Following(words, MarkerPositions(words, |words|)))
  }

  /** The names fail exactly when the last word is the marker; otherwise there is
      one name per marker, the word right after it. */
  lemma PlaneNamesSpec(words: seq<string>)
    ensures var r := PlaneNames(words);
      && (r.None? <==> |words| > 0 && words[|words| - 1] == ConfigMarker)
      && (r.Some? ==>
            var idx := MarkerPositions(words, |words|);
            |r.value| == |idx| && forall k :: 0 <= k < |idx| ==> idx[k] + 1 < |words| && r.value[k] == words[idx[k] + 1])
  {
  }

  method CollectPlaneNames(words: seq<string>) returns (r: Option<seq<string>>)
    ensures r == PlaneNames(words)
  {
    var planes: seq<string> := [];
    for i := 0 to |words|
      invariant planes == Following(words, MarkerPositions(words, i))
      invariant forall k :: 0 <= k < i && words[k] == ConfigMarker ==> k + 1 < |words|
    {
      if words[i] == ConfigMarker {
        if i + 1 >= |words| {
          return None;
        }
        planes := planes + [words[i + 1]];
      }
    }
    r := Some(planes);
  }

  // ---------------------------------------------------------------------------
  // One tag, and the loop over all tags

  /** What one selected tag contributes: the raw x, y and time fields and the plane names. */
  datatype TagInfo = TagInfo(x: seq<Byte>, y: seq<Byte>, jdn: seq<Byte>, planeNames: seq<string>)

  function PlaneWords(v: seq<Byte>): seq<string>
  {
    Split(CollapseSpaces(LaneText(Words(v), LaneWords(v))))
  }

  /** The reading of one tag once its two texts are built: `text` is t_string,
      `words` the split of allchars. */
  function DecodeFrom(v: seq<Byte>, text: string, words: seq<string>): Result<TagInfo, MetadataError>
  {
    var x := FieldBytes(v, text, XMarker, 16, 4);
    if x.Err? then Err(x.error)
    else
      var y := FieldBytes(v, text, YMarker, 16, 4);
      if y.Err? then Err(y.error)
      else
        var jdn := FieldBytes(v, text, TimeMarker, 28, 8);
        if jdn.Err? then Err(jdn.error)
        else
          var names := PlaneNames(words);
          if names.None? then Err(NoNameAfterMarker)
          else Ok(TagInfo(x.value, y.value, jdn.value, names.value))
  }

  function DecodeTag(v: seq<Byte>): Result<TagInfo, MetadataError>
  {
    DecodeFrom(v, TagText(Words(v)), PlaneWords(v))
  }

  /** A tag decodes exactly when the three field markers are in the text with
      enough bytes behind them and the plane-name words do not end on the marker. */
  lemma DecodeFromSucceeds(v: seq<Byte>, text: string, words: seq<string>)
    requires |words| > 0
    ensures var ix, iy, it := IndexOf(text, XMarker), IndexOf(text, YMarker), IndexOf(text, TimeMarker);
      DecodeFrom(v, text, words).Ok? <==>
        && ix.Some? && 2 * ix.value + 20 <= |v|
        && iy.Some? && 2 * iy.value + 20 <= |v|
        && it.Some? && 2 * it.value + 36 <= |v|
        && words[|words| - 1] != ConfigMarker
  {
    DecodeFromParts(v, text, words);
    FieldBytesSpec(v, text, XMarker, 16, 4);
    FieldBytesSpec(v, text, YMarker, 16, 4);
    FieldBytesSpec(v, text, TimeMarker, 28, 8);
    PlaneNamesSpec(words);
  }

  /** The fields are the 4, 4 and 8 bytes found 16, 16 and 28 bytes past the byte
      offset of their markers, and the plane names are those of the words. */
  lemma DecodeFromFields(v: seq<Byte>, text: string, words: seq<string>)
    ensures var ix, iy, it := IndexOf(text, XMarker), IndexOf(text, YMarker), IndexOf(text, TimeMarker);
      var r := DecodeFrom(v, text, words);
      r.Ok? ==>
        && ix.Some? && iy.Some? && it.Some? && 2 * ix.value + 20 <= |v| && 2 * iy.value + 20 <= |v| && 2 * it.value + 36 <= |v|
        && r.value.x == v[2 * ix.value + 16..2 * ix.value + 20]
        && r.value.y == v[2 * iy.value + 16..2 * iy.value + 20]
        && r.value.jdn == v[2 * it.value + 28..2 * it.value + 36]
        && Some(r.value.planeNames) == PlaneNames(words)
  {
    DecodeFromParts(v, text, words);
    FieldBytesSpec(v, text, XMarker, 16, 4);
    FieldBytesSpec(v, text, YMarker, 16, 4);
    FieldBytesSpec(v, text, TimeMarker, 28, 8);
  }

  lemma DecodeFromParts(v: seq<Byte>, text: string, words: seq<string>)
    ensures var x, y, jdn := FieldBytes(v, text, XMarker, 16, 4), FieldBytes(v, text, YMarker, 16, 4), FieldBytes(v, text, TimeMarker, 28, 8);
      var names := PlaneNames(words);
      var r := DecodeFrom(v, text, words);
      && (r.Ok? <==> x.Ok? && y.Ok? && jdn.Ok? && names.Some?)
      && (r.Ok? ==> r.value == TagInfo(x.value, y.value, jdn.value, names.value))
  {
  }

  /** The errors come in the order the source meets them: the x marker, then y,
      then the time field, then the plane names. */
  lemma DecodeFromErrorOrder(v: seq<Byte>, text: string, words: seq<string>)
    requires |words| > 0
    ensures var r := DecodeFrom(v, text, words);
      && (IndexOf(text, XMarker).None? ==> r == Err(MarkerMissing(XMarker)))
      && (r == Err(NoNameAfterMarker) <==>
            && FieldBytes(v, text, XMarker, 16, 4).Ok? && FieldBytes(v, text, YMarker, 16, 4).Ok?
            && FieldBytes(v, text, TimeMarker, 28, 8).Ok? && words[|words| - 1] == ConfigMarker)
  {
    FieldBytesSpec(v, text, XMarker, 16, 4);
    PlaneNamesSpec(words);
  }

  method DecodeTagValue(v: seq<Byte>) returns (r: Result<TagInfo, MetadataError>)
    ensures r == DecodeTag(v)
  {
    var infolist := Words(v);
    var text := BuildTagText(infolist);
    var x := FieldBytes(v, text, XMarker, 16, 4);
    if x.Err? {
      return Err(x.error);
    }
    var y := FieldBytes(v, text, YMarker, 16, 4);
    if y.Err? {
      return Err(y.error);
    }
    var jdn := FieldBytes(v, text, TimeMarker, 28, 8);
    if jdn.Err? {
      return Err(jdn.error);
    }
    var allchars := BuildLaneText(Words(v), LaneWords(v));
    var words := Split(CollapseSpaces(allchars));
    var names := CollectPlaneNames(words);
    if names.None? {
      return Err(NoNameAfterMarker);
    }
    r := Ok(TagInfo(x.value, y.value, jdn.value, names.value));
  }

  datatype Tag = Tag(name: string, value: seq<Byte>)

  /** `tag.name in ('65331')`: a substring test on a string, not a tuple test. */
  predicate Selected(name: string)
  {
    IndexOf(SelectingName, name).Some?
  }

  /** What the loop does with one tag: nothing when it is not selected, else its decoding. */
  type Outcome = Option<Result<TagInfo, MetadataError>>

  function TagOutcome(t: Tag): Outcome
  {
    if Selected(t.name) then Some(DecodeTag(t.value)) else None
  }

  function Outcomes(tags: seq<Tag>): (outs: seq<Outcome>)
    ensures |outs| == |tags|
  {
    seq(|tags|, k requires 0 <= k < |tags| => TagOutcome(tags[k]))
  }

  /** The loop over the outcomes: None while idata keeps its defaults, the
      decoding of the last selected tag otherwise; the first error ends it. */
  function Fold(outs: seq<Outcome>): Result<Option<TagInfo>, MetadataError>
  {
    if |outs| == 0 then Ok(None)
    else
      var prev := Fold(outs[..|outs| - 1]);
      if prev.Err? then prev
      else
        match outs[|outs| - 1]
        case None => prev
        case Some(Err(e)) => Err(e)
        case Some(Ok(info)) => Ok(Some(info))
  }

  /** The metadata read from the tags of all pages, in order. */
  function ExtractSpec(tags: seq<Tag>): Result<Option<TagInfo>, MetadataError>
  {
    Fold(Outcomes(tags))
  }

  predicate Failed(o: Outcome) { o.Some? && o.value.Err? }

  /** Reading fails exactly when some selected tag fails to decode, and then with
      the error of the first such tag. */
  lemma {:induction false} FoldError(outs: seq<Outcome>)
    ensures Fold(outs).Err? <==> exists k :: 0 <= k < |outs| && Failed(outs[k])
    ensures Fold(outs).Err? ==>
      exists k :: 0 <= k < |outs| && outs[k] == Some(Err(Fold(outs).error)) && forall j :: 0 <= j < k ==> !Failed(outs[j])
  {
    if |outs| > 0 {
      var init := outs[..|outs| - 1];
      FoldError(init);
      if Fold(init).Err? {
        var k :| 0 <= k < |init| && init[k] == Some(Err(Fold(init).error)) && forall j :: 0 <= j < k ==> !Failed(init[j]);
        assert outs[k] == init[k];
      } else {
        assert forall j :: 0 <= j < |init| ==> outs[j] == init[j];
      }
    }
  }

  /** Reading succeeds with the defaults exactly when no tag is selected. */
  lemma {:induction false} FoldDefaults(outs: seq<Outcome>)
    ensures Fold(outs) == Ok(None) <==> forall k :: 0 <= k < |outs| ==> outs[k].None?
  {
    if |outs| > 0 {
      var init := outs[..|outs| - 1];
      FoldDefaults(init);
      FoldError(init);
      assert forall j :: 0 <= j < |init| ==> outs[j] == init[j];
      if Fold(init) == Ok(None) && outs[|outs| - 1].Some? {
        assert Fold(outs) != Ok(None);
      }
    }
  }

  /** A successful read with data reports the last selected tag. */
  lemma {:induction false} FoldLastWins(outs: seq<Outcome>)
    ensures Fold(outs).Ok? && Fold(outs).value.Some? ==>
      exists k :: 0 <= k < |outs| && outs[k] == Some(Ok(Fold(outs).value.value))
        && forall j :: k < j < |outs| ==> outs[j].None?
  {
    if |outs| > 0 {
      var init := outs[..|outs| - 1];
      FoldLastWins(init);
      if Fold(outs).Ok? && Fold(outs).value.Some? && outs[|outs| - 1].None? {
        var k :| 0 <= k < |init| && init[k] == Some(Ok(Fold(init).value.value))
          && forall j :: k < j < |init| ==> init[j].None?;
        assert outs[k] == init[k];
      }
    }
  }

  /** One more pass of the loop. */
  lemma FoldStep(outs: seq<Outcome>, n: nat)
    requires n < |outs| && Fold(outs[..n]).Ok?
    ensures outs[n].None? ==> Fold(outs[..n + 1]) == Fold(outs[..n])
    ensures outs[n].Some? ==> Fold(outs[..n + 1]) == match outs[n].value
      case Err(e) => Err(e)
      case Ok(info) => Ok(Some(info))
  {
    assert outs[..n + 1][..n] == outs[..n];
  }

  lemma FoldPrefixError(outs: seq<Outcome>, n: nat)
    requires n <= |outs| && Fold(outs[..n]).Err?
    ensures Fold(outs) == Fold(outs[..n])
    decreases |outs| - n
  {
    if n < |outs| {
      assert outs[..n + 1][..n] == outs[..n];
      FoldPrefixError(outs, n + 1);
    } else {
      assert outs[..n] == outs;
    }
  }

  /** One pass of the tag loop: skip the tag, or decode it. */
  method ReadTag(t: Tag) returns (o: Outcome)
    ensures o == TagOutcome(t)
  {
    if Selected(t.name) {
      var decoded := DecodeTagValue(t.value);
      o := Some(decoded);
    } else {
      o := None;
    }
  }

  method ExtractTifMetadata(tags: seq<Tag>) returns (r: Result<Option<TagInfo>, MetadataError>)
    ensures r == ExtractSpec(tags)
  {
    ghost var outs := Outcomes(tags);
    var idata: Option<TagInfo> := None;
    for n := 0 to |tags|
      invariant Fold(outs[..n]) == Ok(idata)
    {
      var o := ReadTag(tags[n]);
      assert o == outs[n];
      FoldStep(outs, n);
      if o.Some? {
        if o.value.Err? {
          FoldPrefixError(outs, n + 1);
          return Err(o.value.error);
        }
        idata := Some(o.value.value);
      }
    }
    assert outs[..|tags|] == outs;
    r := Ok(idata);
  }

  /** A tag is selected exactly when its name occurs somewhere in "65331". */
  lemma SelectedMeaning(name: string)
    ensures Selected(name) <==> exists j :: OccursAt(SelectingName, name, j)
  {
  }

  /** The empty name is a substring of every string, so a tag with an empty name
      is decoded too; so are '6', '5', '3', '1', '65', '33' and the other substrings. */
  lemma SelectedNames()
    ensures Selected("") && Selected("65331") && Selected("33") && !Selected("65332")
  {
    assert OccursAt(SelectingName, "", 0);
    assert OccursAt(SelectingName, "33", 2);
    assert OccursAt(SelectingName, "65331", 0);
    assert forall j :: !OccursAt(SelectingName, "65332", j);
  }
}
