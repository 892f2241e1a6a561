/** The printed form of an AML name, and what conversion and printing preserve. */
module AslRoundTrip {
  import opened Bytes
  import opened AmlName
  import opened AslName

  // ----- printing -----

  /** A segment without its padding; the first character always stays. */
  function PrintSeg(m: Mem, o: nat): Text {
    Trim([At(m, o, 0), At(m, o, 1), At(m, o, 2), At(m, o, 3)])
  }

  function Trim(seg: Text): (r: Text)
    requires |seg| == 4
    ensures 1 <= |r| <= 4 && r == seg[..|r|]
  {
    if seg[1] == seg[2] == seg[3] == UNDERSCORE then seg[..1]
    else if seg[2] == seg[3] == UNDERSCORE then seg[..2]
    else if seg[3] == UNDERSCORE then seg[..3]
    else seg[..4]
  }

  function PrintRest(m: Mem, o: nat, count: nat): Text
    decreases count
  {
    if count == 0 then [] else [DOT] + PrintSeg(m, o) + PrintRest(m, o + SEG_SIZE, count - 1)
  }

  function PrefixText(m: Mem, o: nat): Text {
    if Read(m, o) == ROOT_CHAR then [ROOT_CHAR] else Parents(ParentRun(m, o))
  }

  function Parents(n: nat): (r: Text)
    ensures |r| == n && forall i :: 0 <= i < n ==> r[i] == PARENT_CHAR
  {
    if n == 0 then [] else Parents(n - 1) + [PARENT_CHAR]
  }

  /** The text that printing the name at `o` produces. */
  function Printed(m: Mem, o: nat): Text {
    var p := PrefixLength(m, o);
    match ParseSegHeader(m, o + p)
    case NullName => PrefixText(m, o)
    case SegHeader(h, n) =>
      PrefixText(m, o) + PrintSeg(m, o + p + h) + PrintRest(m, o + p + h + SEG_SIZE, n - 1)
  }

  method PrintNameSeg(m: Mem, o: nat) returns (out: Text)
    ensures out == PrintSeg(m, o)
  {
    out := [At(m, o, 0)];
    if At(m, o, 1) == UNDERSCORE && At(m, o, 2) == UNDERSCORE && At(m, o, 3) == UNDERSCORE { return; }
    out := out + [At(m, o, 1)];
    if At(m, o, 2) == UNDERSCORE && At(m, o, 3) == UNDERSCORE { return; }
    out := out + [At(m, o, 2)];
    if At(m, o, 3) == UNDERSCORE { return; }
    out := out + [At(m, o, 3)];
  }

  method PrintPrefix(m: Mem, o: nat) returns (out: Text, b: nat)
    ensures out == PrefixText(m, o) && b == o + PrefixLength(m, o)
  {
    b := o;
    if Read(m, b) == ROOT_CHAR {
      return [ROOT_CHAR], b + 1;
    }
    out := [];
    while Read(m, b) == PARENT_CHAR
      invariant o <= b && out == Parents(b - o)
      invariant ParentRun(m, o) == b - o + ParentRun(m, b)
      decreases |m| - b
    {
      out := out + [PARENT_CHAR];
      b := b + 1;
    }
  }

  method PrintDotted(m: Mem, o: nat, count: nat) returns (out: Text)
    ensures out == PrintRest(m, o, count)
  {
    hide PrintSeg;
    out := [];
    var b: nat, left: nat := o, count;
    while 0 < left
      invariant PrintRest(m, o, count) == out + PrintRest(m, b, left)
    {
      var seg := PrintNameSeg(m, b);
      ghost var rest := PrintRest(m, b + SEG_SIZE, left - 1);
      assert out + ([DOT] + seg + rest) == (out + [DOT] + seg) + rest;
      out := out + [DOT] + seg;
      b, left := b + SEG_SIZE, left - 1;
    }
  }

  method PrintNameString(m: Mem, o: nat) returns (out: Text)
    ensures out == Printed(m, o)
  {
    hide PrintSeg, Parents, PrefixText, ParentRun;
    var b;
    out, b := PrintPrefix(m, o);
    var segCount: nat;
    if Read(m, b) == DUAL_PREFIX {
      b, segCount := b + 1, 2;
    } else if Read(m, b) == MULTI_PREFIX {
      segCount := At(m, b, 1);
      b := b + 2;
    } else if Read(m, b) == 0 {
      return;
    } else {
      segCount := 1;
    }
    var seg := PrintNameSeg(m, b);
    var rest := PrintDotted(m, b + SEG_SIZE, if segCount == 0 then 0 else segCount - 1);
    out := out + seg + rest;
  }

  // ----- canonical names -----

  /** The root, or one to 255 segments behind a root or parent prefix. */
  datatype Canon = Canon(root: bool, parents: nat, segs: seq<Text>)

  predicate SegOk(seg: Text) {
    |seg| == 4 && IsLeadName(seg[0]) && IsName(seg[1]) && IsName(seg[2]) && IsName(seg[3])
  }

  predicate SegsOk(segs: seq<Text>) {
    forall i :: 0 <= i < |segs| ==> SegOk(segs[i])
  }

  predicate IsCanon(c: Canon) {
    && (c.root ==> c.parents == 0) && (c.segs == [] ==> c.root)
    && |c.segs| <= 255 && SegsOk(c.segs)
  }

  function Prefix(c: Canon): Text {
    if c.root then [ROOT_CHAR] else Parents(c.parents)
  }

  /** The NUL-terminated AML bytes of a canonical name: no longer prefix than needed. */
  function Encode(c: Canon): Text
    requires |c.segs| <= 255 && SegsOk(c.segs)
  {
    AmlBytes(Prefix(c), c.segs)
  }

  lemma {:induction false} ParentRunAt(s: Text, o: nat, n: nat)
    requires o + n <= |s|
    requires forall i :: o <= i < o + n ==> s[i] == PARENT_CHAR
    requires Read(s, o + n) != PARENT_CHAR
    ensures ParentRun(s, o) == n
    decreases n
  {
    if 0 < n {
      ParentRunAt(s, o + 1, n - 1);
    }
  }

  /** A text that starts with a canonical prefix and goes on with anything else. */
  lemma PrefixParsed(c: Canon, rest: Text)
    requires c.root ==> c.parents == 0
    requires Read(rest, 0) != PARENT_CHAR && (!c.root && c.parents == 0 ==> Read(rest, 0) != ROOT_CHAR)
    ensures var s := Prefix(c) + rest;
            PrefixLength(s, 0) == |Prefix(c)| && PrefixText(s, 0) == Prefix(c)
            && Read(s, |Prefix(c)|) == Read(rest, 0)
  {
    var s := Prefix(c) + rest;
    if !c.root {
      ParentRunAt(s, 0, c.parents);
    }
  }

  // ----- reading back what was written -----

  lemma {:induction false} FlatSegs(pre: Text, segs: seq<Text>, post: Text)
    requires SegsOk(segs)
    ensures NameSegs(pre + Flatten(segs) + post, |pre|, |segs|)
    decreases |segs|
  {
    if segs != [] {
      var m := pre + Flatten(segs) + post;
      assert m == (pre + segs[0]) + Flatten(segs[1..]) + post;
      FlatSegs(pre + segs[0], segs[1..], post);
      assert m[|pre|..|pre| + 4] == segs[0];
      assert IsNameSeg(m, |pre|);
    }
  }

  /** The segment count is announced by the shortest header. */
  lemma HeaderParsed(pre: Text, segs: seq<Text>)
    requires |segs| <= 255 && segs != [] && forall i :: 0 <= i < |segs| ==> |segs[i]| == 4
    requires segs[0][0] != DUAL_PREFIX && segs[0][0] != MULTI_PREFIX && segs[0][0] != 0
    ensures ParseSegHeader(AmlBytes(pre, segs), |pre|) == SegHeader(|CountHeader(|segs|)|, |segs|)
  {
    var m := AmlBytes(pre, segs);
    assert m[|pre|..] == CountHeader(|segs|) + Flatten(segs) + [0];
    assert Flatten(segs)[0] == segs[0][0];
    assert At(m, |pre|, 0) == m[|pre|..][0] && (|segs| > 2 ==> At(m, |pre|, 1) == m[|pre|..][1]);
  }

  lemma CanonFirstByte(c: Canon)
    requires IsCanon(c)
    ensures var rest := CountHeader(|c.segs|) + Flatten(c.segs) + [0];
            && Encode(c) == Prefix(c) + rest
            && Read(rest, 0) != PARENT_CHAR && Read(rest, 0) != ROOT_CHAR
  {
    assert c.segs != [] ==> Flatten(c.segs)[0] == c.segs[0][0];
  }

  /** The size function accepts every canonical name: all of it but the final NUL. */
  lemma CanonSize(c: Canon)
    requires IsCanon(c)
    ensures NameSize(Encode(c), 0) == Some(if c.segs == [] then 2 else |Encode(c)| - 1)
  {
    var m := Encode(c);
    var rest := CountHeader(|c.segs|) + Flatten(c.segs) + [0];
    CanonFirstByte(c);
    PrefixParsed(c, rest);
    if c.segs != [] {
      HeaderParsed(Prefix(c), c.segs);
      FlatSegs(Prefix(c) + CountHeader(|c.segs|), c.segs, [0]);
    }
  }

  // ----- printing what was written -----

  /** The printed segments after the first. */
  function Dotted(segs: seq<Text>): Text
    requires SegsOk(segs)
  {
    if segs == [] then [] else [DOT] + Trim(segs[0]) + Dotted(segs[1..])
  }

  function Joined(segs: seq<Text>): Text
    requires SegsOk(segs)
  {
    if segs == [] then [] else Trim(segs[0]) + Dotted(segs[1..])
  }

  lemma SegAtFlat(pre: Text, segs: seq<Text>, post: Text)
    requires SegsOk(segs) && segs != []
    ensures PrintSeg(pre + Flatten(segs) + post, |pre|) == Trim(segs[0])
  {
    var m := pre + Flatten(segs) + post;
    assert m[|pre|..|pre| + 4] == segs[0];
    assert [At(m, |pre|, 0), At(m, |pre|, 1), At(m, |pre|, 2), At(m, |pre|, 3)] == segs[0];
  }

  lemma {:induction false} PrintFlat(pre: Text, segs: seq<Text>, post: Text)
    requires SegsOk(segs)
    ensures PrintRest(pre + Flatten(segs) + post, |pre|, |segs|) == Dotted(segs)
    decreases |segs|
  {
    if segs != [] {
      SegAtFlat(pre, segs, post);
      assert pre + Flatten(segs) + post == (pre + segs[0]) + Flatten(segs[1..]) + post;
      PrintFlat(pre + segs[0], segs[1..], post);
    }
  }

  lemma PrintAll(pre: Text, segs: seq<Text>)
    requires SegsOk(segs) && segs != []
    ensures var m := pre + Flatten(segs) + [0];
            PrintSeg(m, |pre|) + PrintRest(m, |pre| + SEG_SIZE, |segs| - 1) == Joined(segs)
  {
    hide PrintSeg, Trim;
    SegAtFlat(pre, segs, [0]);
    assert pre + Flatten(segs) + [0] == (pre + segs[0]) + Flatten(segs[1..]) + [0];
    PrintFlat(pre + segs[0], segs[1..], [0]);
  }

  lemma PrintedShape(m: Mem, p: nat, h: nat, n: nat)
    requires PrefixLength(m, 0) == p && ParseSegHeader(m, p) == SegHeader(h, n)
    ensures Printed(m, 0) == PrefixText(m, 0) + (PrintSeg(m, p + h) + PrintRest(m, p + h + SEG_SIZE, n - 1))
  {
    var a, b, c := PrefixText(m, 0), PrintSeg(m, p + h), PrintRest(m, p + h + SEG_SIZE, n - 1);
    assert a + b + c == a + (b + c);
  }

  lemma CanonPrinted(c: Canon)
    requires IsCanon(c)
    ensures Printed(Encode(c), 0) == Prefix(c) + Joined(c.segs)
  {
    var rest := CountHeader(|c.segs|) + Flatten(c.segs) + [0];
    CanonFirstByte(c);
    PrefixParsed(c, rest);
    if c.segs != [] {
      HeaderParsed(Prefix(c), c.segs);
      PrintAll(Prefix(c) + CountHeader(|c.segs|), c.segs);
      PrintedShape(Encode(c), |Prefix(c)|, |CountHeader(|c.segs|)|, |c.segs|);
    }
  }

  // ----- splitting what was printed -----

  lemma {:induction false} ScanSegExact(s: Text, o: nat, k: nat, n: nat, tries: nat)
    requires o + n <= |s| && k < n <= k + tries
    requires forall i :: o + k <= i < o + n ==> IsAslName(s[i])
    requires Ends(Read(s, o + n))
    ensures ScanSeg(s, o, k, tries) == n
    decreases tries
  {
    if k + 1 < n {
      ScanSegExact(s, o, k + 1, n, tries - 1);
    }
  }

  /** A printed segment is found again where it was printed. */
  lemma SegLengthExact(s: Text, o: nat, seg: Text)
    requires SegOk(seg) && o + |Trim(seg)| <= |s| && s[o..o + |Trim(seg)|] == Trim(seg)
    requires Ends(Read(s, o + |Trim(seg)|))
    ensures SegLength(s, o) == |Trim(seg)|
  {
    var n := |Trim(seg)|;
    forall i | o <= i < o + n ensures IsName(s[i]) && (i == o ==> IsLeadName(s[i])) {
      assert s[i] == s[o..o + n][i - o] == seg[i - o];
    }
    if 1 < n {
      ScanSegExact(s, o, 1, n, 3);
    }
  }

  function TrimAll(segs: seq<Text>): (r: seq<Text>)
    requires SegsOk(segs)
    ensures |r| == |segs| && forall i :: 0 <= i < |segs| ==> r[i] == Trim(segs[i])
  {
    if segs == [] then [] else [Trim(segs[0])] + TrimAll(segs[1..])
  }

  lemma SplitFirst(s: Text, o: nat, seg: Text)
    requires SegOk(seg) && o + |Trim(seg)| <= |s| && s[o..o + |Trim(seg)|] == Trim(seg)
    requires Ends(Read(s, o + |Trim(seg)|))
    ensures var n := o + |Trim(seg)|;
            && (Read(s, n) == 0 ==> Split(s, o) == Some([Trim(seg)]))
            && (Read(s, n) != 0 && Split(s, n + 1).Some? ==> Split(s, o) == Some([Trim(seg)] + Split(s, n + 1).value))
  {
    SegLengthExact(s, o, seg);
    assert s[o] == s[o..o + |Trim(seg)|][0];
  }

  lemma SliceConcat(s: Text, o: nat, x: Text, y: Text)
    requires o <= |s| && s[o..] == x + y
    ensures o + |x| + |y| == |s| && s[o..o + |x|] == x && s[o + |x|..] == y
    ensures x != [] ==> Read(s, o) == x[0]
    ensures Read(s, o + |x|) == Read(y, 0)
  {
    assert s[o..o + |x|] == s[o..][..|x|];
    assert s[o + |x|..] == s[o..][|x|..];
    assert y != [] ==> s[o + |x|] == s[o..][|x|];
  }

  /** A text that goes on with a printed segment and the rest of a printed name. */
  lemma JoinedAt(s: Text, o: nat, segs: seq<Text>)
    requires SegsOk(segs) && segs != [] && o <= |s| && s[o..] == Joined(segs)
    ensures var n := o + |Trim(segs[0])|;
            && n <= |s| && s[o..n] == Trim(segs[0]) && Ends(Read(s, n))
            && (|segs| == 1 ==> Read(s, n) == 0)
            && (|segs| > 1 ==> Read(s, n) == DOT && n < |s| && s[n + 1..] == Joined(segs[1..]))
  {
    hide Trim, IsName, IsLeadName;
    var seg, rest := Trim(segs[0]), segs[1..];
    SliceConcat(s, o, seg, Dotted(rest));
    if |segs| > 1 {
      SliceConcat(s, o + |seg|, [DOT], Joined(rest));
    }
  }

  lemma SplitEnd(s: Text)
    ensures Split(s, |s|) == Some([])
  {}

  lemma {:induction false} SplitJoined(s: Text, o: nat, segs: seq<Text>)
    requires SegsOk(segs) && o <= |s| && s[o..] == Joined(segs)
    ensures Split(s, o) == Some(TrimAll(segs))
    decreases |segs|
  {
    hide Split, SegLength;
    if segs == [] {
      SplitEnd(s);
    } else {
      JoinedAt(s, o, segs);
      SplitFirst(s, o, segs[0]);
      if |segs| == 1 {
        assert TrimAll(segs) == [Trim(segs[0])];
      } else {
        SplitJoined(s, o + |Trim(segs[0])| + 1, segs[1..]);
        assert TrimAll(segs) == [Trim(segs[0])] + TrimAll(segs[1..]);
      }
    }
  }

  lemma PadTrim(seg: Text)
    requires SegOk(seg)
    ensures Pad(Trim(seg)) == seg
  {
    var n := |Trim(seg)|;
    assert forall i :: 0 <= i < 4 ==> Upper(seg[i]) == seg[i];
    assert Trim(seg) == seg[..n];
    assert forall i :: n <= i < 4 ==> seg[i] == UNDERSCORE;
  }

  lemma {:induction false} PadTrimAll(segs: seq<Text>)
    requires SegsOk(segs)
    ensures PadAll(TrimAll(segs)) == segs
  {
    hide Pad, Trim;
    forall i | 0 <= i < |segs| ensures Pad(Trim(segs[i])) == segs[i] {
      PadTrim(segs[i]);
    }
  }

  lemma ConvertFrom(s: Text, p: nat, segs: seq<Text>)
    requires p <= |s| && PrefixLength(s, 0) == p && Split(s, p) == Some(segs) && |segs| <= 255
    ensures Convert(s) == Some(AmlBytes(s[..p], PadAll(segs)))
  {
    hide Split, AmlBytes, PadAll;
  }

  /** Converting the joined segments of a canonical name behind its prefix. */
  lemma JoinedConverts(c: Canon)
    requires IsCanon(c)
    ensures Convert(Prefix(c) + Joined(c.segs)) == Some(Encode(c))
  {
    hide Split, Convert, AmlBytes, PadAll;
    var text, p := Prefix(c) + Joined(c.segs), |Prefix(c)|;
    assert c.segs != [] ==> Joined(c.segs)[0] == c.segs[0][0];
    PrefixParsed(c, Joined(c.segs));
    assert text[p..] == Joined(c.segs) && text[..p] == Prefix(c);
    SplitJoined(text, p, c.segs);
    PadTrimAll(c.segs);
    ConvertFrom(text, p, TrimAll(c.segs));
  }

  /** Round trip: converting the printed form of a canonical name gives the name back. */
  lemma RoundTrip(c: Canon)
    requires IsCanon(c)
    ensures Convert(Printed(Encode(c), 0)) == Some(Encode(c))
  {
    hide Convert, Printed, AmlBytes;
    CanonPrinted(c);
    JoinedConverts(c);
  }

  // ----- which conversions are AML names -----

  /** Every segment of the path starts with a letter or an underscore. */
  predicate LeadsOk(segs: seq<Text>) {
    forall i :: 0 <= i < |segs| ==> segs[i] != [] && IsAslLeadName(segs[i][0])
  }

  lemma {:induction false} ScanSegNames(s: Text, o: nat, k: nat, tries: nat)
    requires o + k <= |s|
    requires forall i :: o <= i < o + k ==> IsAslName(s[i])
    ensures forall i :: o <= i < o + ScanSeg(s, o, k, tries) ==> IsAslName(s[i])
    decreases tries
  {
    if tries != 0 {
      var n := if IsAslName(Read(s, o + k)) then k + 1 else k;
      ScanSegNames(s, o, n, tries - 1);
    }
  }

  lemma SegLengthNames(s: Text, o: nat)
    requires o <= |s|
    ensures forall i :: o <= i < o + SegLength(s, o) ==> IsAslName(s[i])
  {
    if Read(s, o) != 0 {
      ScanSegNames(s, o, if IsAslLeadName(Read(s, o)) then 1 else 0, 3);
    }
  }

  predicate AllNames(seg: Text) {
    forall i :: 0 <= i < |seg| ==> IsAslName(seg[i])
  }

  predicate AllNamed(segs: seq<Text>) {
    forall i :: 0 <= i < |segs| ==> AllNames(segs[i])
  }

  lemma AllNamedCons(segs: seq<Text>)
    requires segs != [] && AllNames(segs[0]) && AllNamed(segs[1..])
    ensures AllNamed(segs)
  {
    hide AllNames;
    forall i | 0 <= i < |segs|
      ensures AllNames(segs[i])
    {
      assert 0 < i ==> segs[i] == segs[1..][i - 1];
    }
  }

  lemma {:induction false} SplitNames(s: Text, o: nat)
    requires o <= |s| && Split(s, o).Some?
    ensures AllNamed(Split(s, o).value)
    decreases |s| - o
  {
    if Read(s, o) != 0 {
      hide Split, SegLength, IsAslName, AllNamed;
      SegLengthNames(s, o);
      SplitStep(s, o);
      var n := SegLength(s, o);
      assert AllNames(s[o..o + n]);
      if Read(s, o + n) != 0 {
        SplitNames(s, o + n + 1);
      } else {
        NoneNamed();
      }
      AllNamedCons(Split(s, o).value);
    } else {
      NoneNamed();
    }
  }

  lemma NoneNamed()
    ensures AllNamed([])
  {}

  lemma PadOk(seg: Text)
    requires 1 <= |seg| <= 4 && AllNames(seg)
    ensures SegOk(Pad(seg)) <==> IsAslLeadName(seg[0])
    ensures IsName(Pad(seg)[0])
  {
    assert Pad(seg)[0] == Upper(seg[0]);
    assert forall i :: 0 <= i < 4 ==> Pad(seg)[i] == if i < |seg| then Upper(seg[i]) else UNDERSCORE;
  }

  /** The prefix of any path is a canonical prefix. */
  function PrefixCanon(s: Text, segs: seq<Text>): Canon {
    if Read(s, 0) == ROOT_CHAR then Canon(true, 0, segs) else Canon(false, ParentRun(s, 0), segs)
  }

  lemma {:induction false} BadSegFound(pre: Text, segs: seq<Text>, post: Text)
    requires forall i :: 0 <= i < |segs| ==> |segs[i]| == 4
    requires !SegsOk(segs)
    ensures !NameSegs(pre + Flatten(segs) + post, |pre|, |segs|)
    decreases |segs|
  {
    var m := pre + Flatten(segs) + post;
    assert m[|pre|..|pre| + 4] == segs[0];
    assert IsNameSeg(m, |pre|) == SegOk(segs[0]);
    if SegOk(segs[0]) {
      assert m == (pre + segs[0]) + Flatten(segs[1..]) + post;
      BadSegFound(pre + segs[0], segs[1..], post);
    }
  }

  lemma BadNameRejected(root: bool, parents: nat, segs: seq<Text>)
    requires root ==> parents == 0
    requires 0 < |segs| <= 255 && forall i :: 0 <= i < |segs| ==> |segs[i]| == 4
    requires IsName(segs[0][0]) && !SegsOk(segs)
    ensures NameSize(AmlBytes(Prefix(Canon(root, parents, segs)), segs), 0) == None
  {
    var c := Canon(root, parents, segs);
    var rest := CountHeader(|segs|) + Flatten(segs) + [0];
    assert Flatten(segs)[0] == segs[0][0];
    assert AmlBytes(Prefix(c), segs) == Prefix(c) + rest;
    PrefixParsed(c, rest);
    HeaderParsed(Prefix(c), segs);
    BadSegFound(Prefix(c) + CountHeader(|segs|), segs, [0]);
  }

  lemma EmptyNameRejected(parents: nat)
    ensures NameSize(AmlBytes(Parents(parents), []), 0) == None
  {
    var c := Canon(false, parents, []);
    assert AmlBytes(Parents(parents), []) == Prefix(c) + [0];
    PrefixParsed(c, [0]);
  }

  lemma ConvertShape(s: Text)
    requires Convert(s).Some?
    ensures var segs := PathSegs(s).value;
            var c := PrefixCanon(s, PadAll(segs));
            && Convert(s) == Some(AmlBytes(Prefix(c), PadAll(segs)))
            && (SegsOk(PadAll(segs)) <==> LeadsOk(segs))
            && (segs != [] ==> IsName(PadAll(segs)[0][0]))
  {
    PrefixFits(s, 0);
    ParentRunText(s, 0);
    SplitNames(s, PrefixLength(s, 0));
    var segs := PathSegs(s).value;
    assert s[..PrefixLength(s, 0)] == Prefix(PrefixCanon(s, PadAll(segs)));
    forall i | 0 <= i < |segs| ensures IsName(PadAll(segs)[i][0]) && (SegOk(PadAll(segs)[i]) <==> IsAslLeadName(segs[i][0])) {
      PadOk(segs[i]);
    }
  }

  /** Conversion of a path whose segments all have a lead character yields a canonical name. */
  lemma ConvertIsCanon(s: Text)
    requires Convert(s).Some? && LeadsOk(PathSegs(s).value)
    requires PathSegs(s).value != [] || Read(s, 0) == ROOT_CHAR
    ensures var c := PrefixCanon(s, PadAll(PathSegs(s).value));
            IsCanon(c) && Convert(s) == Some(Encode(c))
  {
    ConvertShape(s);
  }

  /** A path that has no segments but is not the root, or whose segments lack a lead character. */
  lemma BadConversionRejected(s: Text)
    requires Convert(s).Some?
    requires var segs := PathSegs(s).value; !LeadsOk(segs) || (segs == [] && Read(s, 0) != ROOT_CHAR)
    ensures NameSize(Convert(s).value, 0) == None
  {
    ConvertShape(s);
    var segs := PadAll(PathSegs(s).value);
    if segs == [] {
      EmptyNameRejected(ParentRun(s, 0));
    } else {
      var c := PrefixCanon(s, segs);
      BadNameRejected(c.root, c.parents, segs);
    }
  }

  lemma GoodConversionSize(s: Text)
    requires Convert(s).Some? && LeadsOk(PathSegs(s).value)
    requires PathSegs(s).value != [] || Read(s, 0) == ROOT_CHAR
    ensures NameSize(Convert(s).value, 0) == Some(if PathSegs(s).value == [] then 2 else |Convert(s).value| - 1)
  {
    hide NameSize, Encode, Split, AmlBytes, SegsOk;
    ConvertIsCanon(s);
    CanonSize(PrefixCanon(s, PadAll(PathSegs(s).value)));
  }

  /**
   The size function on a converted path: it accepts exactly the bare root and the paths with
   segments that each start with a letter or underscore; of those it measures all bytes but
   the final NUL.
   */
  lemma ConvertedSize(s: Text)
    requires Convert(s).Some?
    ensures var segs, size := PathSegs(s).value, NameSize(Convert(s).value, 0);
            && (size.Some? <==> LeadsOk(segs) && (segs != [] || Read(s, 0) == ROOT_CHAR))
            && (size.Some? && segs != [] ==> size.value == |Convert(s).value| - 1)
            && (size.Some? && segs == [] ==> size.value == 2)
  {
    var segs := PathSegs(s).value;
    if LeadsOk(segs) && (segs != [] || Read(s, 0) == ROOT_CHAR) {
      GoodConversionSize(s);
    } else {
      BadConversionRejected(s);
    }
  }

  /** Printing a converted path and converting it again changes nothing. */
  lemma ConvertPrintedConvert(s: Text)
    requires Convert(s).Some? && LeadsOk(PathSegs(s).value)
    requires PathSegs(s).value != [] || Read(s, 0) == ROOT_CHAR
    ensures Convert(Printed(Convert(s).value, 0)) == Convert(s)
  {
    ConvertIsCanon(s);
    RoundTrip(PrefixCanon(s, PadAll(PathSegs(s).value)));
  }
}
