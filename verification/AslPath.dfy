/**
 What a path means, independently of how it is written: the case of its letters does not matter,
 its printed form is the shortest one, and its AML bytes resolve to its segments wherever they lie.
 */
module AslPath {
  import opened Bytes
  import opened AmlName
  import opened AslName
  import opened AslRoundTrip
  import N = AmlNamespace

  // ----- upper and lower case -----

  /** The same character, or `d` is the capital of the small letter `c`. */
  predicate SameLetter(c: byte, d: byte) {
    d == c || (0x61 <= c <= 0x7A && d as int == c as int - 0x20)
  }

  /** `u` is `s` with some small letters replaced by their capitals. */
  ghost predicate Capitalised(s: Text, u: Text) {
    |s| == |u| && forall i :: 0 <= i < |s| ==> SameLetter(s[i], u[i])
  }

  /** The two characters play the same part in a path. */
  predicate SameClass(c: byte, d: byte) {
    && IsAslName(c) == IsAslName(d) && IsAslLeadName(c) == IsAslLeadName(d) && Ends(c) == Ends(d)
    && (c == 0 <==> d == 0) && (c == ROOT_CHAR <==> d == ROOT_CHAR) && (c == PARENT_CHAR <==> d == PARENT_CHAR)
  }

  lemma ReadSame(s: Text, u: Text, i: nat)
    requires Capitalised(s, u)
    ensures SameClass(Read(s, i), Read(u, i))
  {
  }

  lemma {:induction false} ScanSame(s: Text, u: Text, o: nat, n: nat, tries: nat)
    requires Capitalised(s, u) && o + n <= |s|
    ensures ScanSeg(s, o, n, tries) == ScanSeg(u, o, n, tries)
    decreases tries
  {
    hide Capitalised;
    if tries != 0 {
      ReadSame(s, u, o + n);
      var k := if IsAslName(Read(s, o + n)) then n + 1 else n;
      ReadSame(s, u, o + k);
      if !Ends(Read(s, o + k)) {
        ScanSame(s, u, o, k, tries - 1);
      }
    }
  }

  lemma SegLengthSame(s: Text, u: Text, o: nat)
    requires Capitalised(s, u) && o <= |s|
    ensures SegLength(s, o) == SegLength(u, o)
  {
    ReadSame(s, u, o);
    var k := if IsAslLeadName(Read(s, o)) then 1 else 0;
    ReadSame(s, u, o + k);
    if Read(s, o) != 0 && !Ends(Read(s, o + k)) {
      ScanSame(s, u, o, k, 3);
    }
  }

  lemma PadSame(x: Text, y: Text)
    requires Capitalised(x, y) && |x| <= 4
    ensures Pad(x) == Pad(y)
  {
  }

  /** The padded segments from `o` on, as conversion uses them. */
  function Padded(s: Text, o: nat): Option<seq<Text>>
    requires o <= |s|
  {
    match Split(s, o)
    case None => None
    case Some(segs) => Some(PadAll(segs))
  }

  lemma PadAllCons(x: Text, segs: seq<Text>)
    requires |x| <= 4 && forall i :: 0 <= i < |segs| ==> |segs[i]| <= 4
    ensures PadAll([x] + segs) == [Pad(x)] + PadAll(segs) && PadAll([x]) == [Pad(x)] && PadAll([]) == []
  {
    hide Pad;
    assert ([x] + segs)[1..] == segs;
  }

  /** One step of the split, padded. */
  lemma PaddedStep(s: Text, o: nat)
    requires o <= |s|
    ensures Read(s, o) == 0 ==> Padded(s, o) == Some([])
    ensures Read(s, o) != 0 ==>
              var n := SegLength(s, o);
              if n == 0 then Padded(s, o) == None
              else if Read(s, o + n) == 0 then Padded(s, o) == Some([Pad(s[o..o + n])])
              else Padded(s, o) == match Padded(s, o + n + 1)
                                   case None => None
                                   case Some(rest) => Some([Pad(s[o..o + n])] + rest)
  {
    hide Pad, SegLength, PadAll;
    PadAllCons([], []);
    if Read(s, o) != 0 {
      var n := SegLength(s, o);
      if n != 0 {
        PadAllCons(s[o..o + n], []);
        if Read(s, o + n) != 0 && Split(s, o + n + 1).Some? {
          PadAllCons(s[o..o + n], Split(s, o + n + 1).value);
        }
      }
    }
  }

  lemma {:induction false} SplitSame(s: Text, u: Text, o: nat)
    requires Capitalised(s, u) && o <= |s|
    ensures Padded(s, o) == Padded(u, o)
    decreases |s| - o
  {
    hide SegLength, Pad, Padded, Capitalised;
    ReadSame(s, u, o);
    SameLength(s, u);
    PaddedStep(s, o);
    PaddedStep(u, o);
    if Read(s, o) != 0 {
      SegLengthSame(s, u, o);
      var n := SegLength(s, o);
      if n != 0 {
        ReadSame(s, u, o + n);
        SliceSame(s, u, o, o + n);
        PadSame(s[o..o + n], u[o..o + n]);
        if Read(s, o + n) != 0 {
          SplitSame(s, u, o + n + 1);
        }
      }
    }
  }

  lemma SameLength(s: Text, u: Text)
    requires Capitalised(s, u)
    ensures |s| == |u|
  {
  }

  lemma SliceSame(s: Text, u: Text, lo: nat, hi: nat)
    requires Capitalised(s, u) && lo <= hi <= |s|
    ensures hi <= |u| && Capitalised(s[lo..hi], u[lo..hi])
  {
  }

  lemma {:induction false} ParentRunSame(s: Text, u: Text, o: nat)
    requires Capitalised(s, u)
    ensures ParentRun(s, o) == ParentRun(u, o)
    decreases |s| - o
  {
    if o < |s| && s[o] == PARENT_CHAR {
      ParentRunSame(s, u, o + 1);
    }
  }

  /** Writing small letters of a path as capitals does not change the name that it converts to. */
  lemma CaseDoesNotMatter(s: Text, u: Text)
    requires Capitalised(s, u)
    ensures Convert(s) == Convert(u)
  {
    hide Split, PadAll, AmlBytes, IsAslName, Padded;
    ReadSame(s, u, 0);
    ParentRunSame(s, u, 0);
    PrefixFits(s, 0);
    PrefixFits(u, 0);
    var p := PrefixLength(s, 0);
    SplitSame(s, u, p);
    ParentRunText(s, 0);
    ParentRunText(u, 0);
    assert s[..p] == u[..p];
    ConvertPadded(s);
    ConvertPadded(u);
  }

  lemma ConvertPadded(s: Text)
    ensures PrefixLength(s, 0) <= |s|
    ensures Convert(s) == match Padded(s, PrefixLength(s, 0))
                          case None => None
                          case Some(segs) =>
                            if |segs| > 255 then None
                            else if exists i :: 0 <= i < |segs| && |segs[i]| != 4 then None
                            else Some(AmlBytes(s[..PrefixLength(s, 0)], segs))
  {
    hide Split, AmlBytes;
    PrefixFits(s, 0);
  }

  // ----- which segments are accepted -----

  ghost predicate NamesIn(s: Text, lo: nat, hi: nat) {
    lo <= hi <= |s| && forall i :: lo <= i < hi ==> IsAslName(s[i])
  }

  lemma NameFirst(s: Text, lo: nat, hi: nat)
    ensures NamesIn(s, lo, hi) && lo < hi ==> IsAslName(Read(s, lo))
  {
  }

  /** At most `tries` more name characters are read, at least one, and then the segment must end. */
  lemma {:induction false} ScanIs(s: Text, o: nat, n: nat, tries: nat, k: nat)
    requires o + n <= |s| && !Ends(Read(s, o + n)) && n < k
    ensures ScanSeg(s, o, n, tries) == k <==> k <= n + tries && NamesIn(s, o + n, o + k) && Ends(Read(s, o + k))
    decreases tries
  {
    if tries != 0 {
      var here := Read(s, o + n);
      if !IsAslName(here) {
        ScanIs(s, o, n, tries - 1, k);
        NameFirst(s, o + n, o + k);
      } else if Ends(Read(s, o + n + 1)) {
        NameFirst(s, o + n + 1, o + k);
      } else if n + 1 < k {
        ScanIs(s, o, n + 1, tries - 1, k);
      }
    }
  }

  /**
   A segment of `k` characters is found exactly if there are `k` letters, digits and underscores before
   the next dot or the end: at most four, or at most three if the first is a digit.
   */
  lemma SegLengthIs(s: Text, o: nat, k: nat)
    requires o <= |s| && 0 < k
    ensures SegLength(s, o) == k <==>
              && NamesIn(s, o, o + k) && Ends(Read(s, o + k)) && k <= if IsAslLeadName(Read(s, o)) then 4 else 3
  {
    if IsAslLeadName(Read(s, o)) {
      if Ends(Read(s, o + 1)) {
        NameFirst(s, o + 1, o + k);
      } else if 1 < k {
        ScanIs(s, o, 1, 3, k);
      }
    } else if !Ends(Read(s, o)) {
      ScanIs(s, o, 0, 3, k);
    } else {
      NameFirst(s, o, o + k);
    }
  }

  // ----- the printed segment -----

  /** Printing a segment leaves the shortest text that pads back to it. */
  lemma TrimShortest(seg: Text, u: Text)
    requires SegOk(seg) && 1 <= |u| <= 4 && Pad(u) == seg
    ensures Pad(Trim(seg)) == seg && |Trim(seg)| <= |u|
  {
    PadTrim(seg);
    assert forall i :: |u| <= i < 4 ==> seg[i] == UNDERSCORE by {
      assert forall i :: |u| <= i < 4 ==> Pad(u)[i] == Underscores(4 - |u|)[i - |u|];
    }
  }

  // ----- the path that a name denotes -----

  lemma {:induction false} SegsLocal(m1: Mem, o1: nat, m2: Mem, o2: nat, count: nat)
    requires Agree(m1, o1, m2, o2, SEG_SIZE * count)
    ensures N.Segs(m1, o1, count) == N.Segs(m2, o2, count)
    decreases count
  {
    if count != 0 {
      assert At(m1, o1, 0) == At(m2, o2, 0) && At(m1, o1, 1) == At(m2, o2, 1);
      assert At(m1, o1, 2) == At(m2, o2, 2) && At(m1, o1, 3) == At(m2, o2, 3);
      AgreeShift(m1, o1, m2, o2, SEG_SIZE * count, SEG_SIZE);
      SegsLocal(m1, o1 + SEG_SIZE, m2, o2 + SEG_SIZE, count - 1);
    }
  }

  /** Prefix, header and segments make up an accepted name. */
  lemma NameParts(m: Mem, o: nat)
    requires NameSize(m, o).Some?
    ensures var p := PrefixLength(m, o);
            var h := ParseSegHeader(m, o + p);
            && p < NameSize(m, o).value
            && (h.SegHeader? ==> p + h.bytes + SEG_SIZE * h.count == NameSize(m, o).value && 0 < h.count)
            && (h.NullName? ==> Read(m, o) == ROOT_CHAR && p == 1)
  {
    hide NameSegs, ParentRun;
  }

  lemma PrefixLocal(m1: Mem, o1: nat, m2: Mem, o2: nat, n: nat)
    requires Agree(m1, o1, m2, o2, n) && PrefixLength(m1, o1) < n
    ensures Read(m2, o2) == Read(m1, o1) && (Read(m1, o1) != ROOT_CHAR ==> ParentRun(m2, o2) == ParentRun(m1, o1))
    ensures PrefixLength(m2, o2) == PrefixLength(m1, o1)
  {
    assert At(m1, o1, 0) == At(m2, o2, 0);
    if Read(m1, o1) != ROOT_CHAR {
      ParentRunLocal(m1, o1, m2, o2, n);
    }
  }

  /** The prefix and the header of an accepted name lie in its bytes. */
  lemma HeaderLocal(m1: Mem, o1: nat, m2: Mem, o2: nat, n: nat)
    requires Agree(m1, o1, m2, o2, n)
    requires NameSize(m1, o1).Some? && NameSize(m1, o1).value <= n
    ensures Read(m2, o2) == Read(m1, o1) && (Read(m1, o1) != ROOT_CHAR ==> ParentRun(m2, o2) == ParentRun(m1, o1))
    ensures PrefixLength(m2, o2) == PrefixLength(m1, o1)
    ensures var p := PrefixLength(m1, o1);
            var h := ParseSegHeader(m1, o1 + p);
            ParseSegHeader(m2, o2 + p) == h && (h.SegHeader? ==> p + h.bytes + SEG_SIZE * h.count <= n)
  {
    hide NameSize, PrefixLength, ParentRun, Agree, Read;
    NameParts(m1, o1);
    PrefixLocal(m1, o1, m2, o2, n);
    var p := PrefixLength(m1, o1);
    AgreeAt(m1, o1, m2, o2, n, p);
    if Read(m1, o1 + p) == MULTI_PREFIX {
      AgreeAt(m1, o1, m2, o2, n, p + 1);
      assert o1 + p + 1 == o1 + (p + 1) && o2 + p + 1 == o2 + (p + 1);
    }
  }

  lemma AgreeAt(m1: Mem, o1: nat, m2: Mem, o2: nat, n: nat, i: nat)
    requires Agree(m1, o1, m2, o2, n) && i < n
    ensures Read(m1, o1 + i) == Read(m2, o2 + i)
  {
    assert At(m1, o1, i) == At(m2, o2, i);
  }

  /** An accepted name denotes the same path wherever its bytes lie. */
  lemma ResolveLocal(m1: Mem, o1: nat, m2: Mem, o2: nat, n: nat, base: N.Path)
    requires Agree(m1, o1, m2, o2, n)
    requires NameSize(m1, o1).Some? && NameSize(m1, o1).value <= n
    ensures N.Resolve(m2, o2, base) == N.Resolve(m1, o1, base)
  {
    hide NameSize, ParentRun, PrefixLength, ParseSegHeader, N.Segs, Agree;
    HeaderLocal(m1, o1, m2, o2, n);
    var p := PrefixLength(m1, o1);
    match ParseSegHeader(m1, o1 + p)
    case NullName =>
    case SegHeader(h, count) =>
      AgreeShift(m1, o1, m2, o2, n, p + h);
      AgreeLess(m1, o1 + (p + h), m2, o2 + (p + h), n - (p + h), SEG_SIZE * count);
      SegsLocal(m1, o1 + (p + h), m2, o2 + (p + h), count);
      assert o1 + p + h == o1 + (p + h) && o2 + p + h == o2 + (p + h);
  }

  lemma AgreeLess(m1: Mem, o1: nat, m2: Mem, o2: nat, n: nat, k: nat)
    requires Agree(m1, o1, m2, o2, n) && k <= n
    ensures Agree(m1, o1, m2, o2, k)
  {
  }

  lemma {:induction false} SegsFlat(pre: Text, segs: seq<Text>, post: Text)
    requires SegsOk(segs)
    ensures N.Segs(pre + Flatten(segs) + post, |pre|, |segs|) == segs
    decreases |segs|
  {
    if segs != [] {
      var m := pre + Flatten(segs) + post;
      assert m == (pre + segs[0]) + Flatten(segs[1..]) + post;
      SegsFlat(pre + segs[0], segs[1..], post);
      assert m[|pre|..|pre| + 4] == segs[0];
      assert N.SegAt(m, |pre|) == segs[0];
    }
  }

  /** Where a canonical name starts from. */
  function Start(c: Canon, base: N.Path): N.Path {
    if c.root then [] else N.Ascend(base, c.parents)
  }

  lemma ResolveEncoded(c: Canon, base: N.Path)
    requires IsCanon(c)
    ensures N.Resolve(Encode(c), 0, base) == Start(c, base) + c.segs
  {
    var rest := CountHeader(|c.segs|) + Flatten(c.segs) + [0];
    CanonFirstByte(c);
    PrefixParsed(c, rest);
    if c.segs != [] {
      HeaderParsed(Prefix(c), c.segs);
      SegsFlat(Prefix(c) + CountHeader(|c.segs|), c.segs, [0]);
    }
    if !c.root {
      ParentRunAt(Encode(c), 0, c.parents);
    }
  }

  /** A converted path denotes its padded segments, behind the root or the parents that it starts with. */
  lemma PathResolves(s: Text, base: N.Path)
    requires Convert(s).Some? && LeadsOk(PathSegs(s).value)
    requires PathSegs(s).value != [] || Read(s, 0) == ROOT_CHAR
    ensures N.Resolve(Convert(s).value, 0, base)
         == (if Read(s, 0) == ROOT_CHAR then [] else N.Ascend(base, ParentRun(s, 0))) + PadAll(PathSegs(s).value)
  {
    hide N.Resolve, Encode, Split, AmlBytes, SegsOk;
    ConvertIsCanon(s);
    ResolveEncoded(PrefixCanon(s, PadAll(PathSegs(s).value)), base);
  }

  /** The bytes of a name inside an object: without a terminator, except for the bare root. */
  function NameBytes(c: Canon): (r: Text)
    requires IsCanon(c)
    ensures 0 < |r|
  {
    if c.segs == [] then Encode(c) else Encode(c)[..|Encode(c)| - 1]
  }

  /** A canonical name among any other bytes has its size and denotes its segments behind its origin. */
  lemma NameInMemory(pre: Text, c: Canon, post: Text, base: N.Path)
    requires IsCanon(c)
    ensures NameSize(pre + NameBytes(c) + post, |pre|) == Some(|NameBytes(c)|)
    ensures N.Resolve(pre + NameBytes(c) + post, |pre|, base) == Start(c, base) + c.segs
  {
    hide NameSize, N.Resolve, Encode;
    var m, n := pre + NameBytes(c) + post, |NameBytes(c)|;
    CanonSize(c);
    ResolveEncoded(c, base);
    forall i: nat | i < n ensures At(Encode(c), 0, i) == At(m, |pre|, i) {
      assert m[|pre| + i] == NameBytes(c)[i];
    }
    EncodedSize(c);
    NameSizeLocal(Encode(c), 0, m, |pre|, n);
    ResolveLocal(Encode(c), 0, m, |pre|, n, base);
  }

  lemma EncodedSize(c: Canon)
    requires IsCanon(c)
    ensures c.segs == [] ==> |Encode(c)| == 2
  {
  }
}
