/**
 * Contig length index read from a FASTA stream (get_contig_size).
 *
 * The stream is a sequence of stripped, non-empty lines. A line starting with
 * '>' is a header; any other line is residues. The index lists the header ids
 * in order and maps ids to the number of residues below their header.
 */
module FastaIndex {

  /** Why the index could not be built. */
  datatype Failure =
    | NoContigs      // no residue line at all: "No contigs found", exit status 2
    | MissingHeader  // residues before the first header: contigID[-1] on an empty list

  datatype Index = Index(ids: seq<string>, size: map<string, int>)

  datatype Outcome = Indexed(index: Index) | Failed(failure: Failure)

  /** Every line is non-empty once stripped (a blank line makes the source fail on l[0]). */
  predicate NonBlank(lines: seq<string>)
  {
    forall i :: 0 <= i < |lines| ==> lines[i] != []
  }

  predicate IsHeader(l: string)
  {
    |l| > 0 && l[0] == '>'
  }

  predicate AllHeaders(lines: seq<string>)
  {
    forall i :: 0 <= i < |lines| ==> IsHeader(lines[i])
  }

  predicate NoHeader(lines: seq<string>)
  {
    forall i :: 0 <= i < |lines| ==> !IsHeader(lines[i])
  }

  // ---------------------------------------------------------------------------
  // Header ids: l.split(" ")[0].strip(">")

  /** The text before the first space. */
  function FirstToken(l: string): string
  {
    if l == [] || l[0] == ' ' then [] else [l[0]] + FirstToken(l[1..])
  }

  /** s without its leading run of c. */
  function TrimStart(s: string, c: char): string
  {
    if s != [] && s[0] == c then TrimStart(s[1..], c) else s
  }

  /** s without its trailing run of c. */
  function TrimEnd(s: string, c: char): string
  {
    if s != [] && s[|s| - 1] == c then TrimEnd(s[..|s| - 1], c) else s
  }

  /** The first token is a space-free prefix of the line, followed by a space unless it is the whole line. */
  lemma {:induction false} FirstTokenSplit(l: string)
    ensures var t := FirstToken(l);
      t <= l && ' ' !in t && (|t| < |l| ==> l[|t|] == ' ')
  {
    if l != [] && l[0] != ' ' {
      FirstTokenSplit(l[1..]);
    }
  }

  /** TrimStart leaves a suffix of s that does not start with c. */
  lemma {:induction false} TrimStartShape(s: string, c: char)
    ensures var r := TrimStart(s, c);
      |r| <= |s| && r == s[|s| - |r|..] && (r == [] || r[0] != c)
  {
    if s != [] && s[0] == c {
      TrimStartShape(s[1..], c);
    }
  }

  /** What TrimStart removes is a run of c. */
  lemma {:induction false} TrimStartRemovesOnly(s: string, c: char)
    ensures |TrimStart(s, c)| <= |s|
    ensures forall i :: 0 <= i < |s| - |TrimStart(s, c)| ==> s[i] == c
  {
    if s != [] && s[0] == c {
      TrimStartRemovesOnly(s[1..], c);
      var r := TrimStart(s, c);
      forall i | 0 < i < |s| - |r| ensures s[i] == c {
        assert s[i] == s[1..][i - 1];
      }
    }
  }

  /** TrimEnd leaves a prefix of s that does not end with c. */
  lemma {:induction false} TrimEndShape(s: string, c: char)
    ensures var r := TrimEnd(s, c);
      r <= s && (r == [] || r[|r| - 1] != c)
  {
    if s != [] && s[|s| - 1] == c {
      TrimEndShape(s[..|s| - 1], c);
    }
  }

  /** What TrimEnd removes is a run of c. */
  lemma {:induction false} TrimEndRemovesOnly(s: string, c: char)
    ensures |TrimEnd(s, c)| <= |s|
    ensures forall i :: |TrimEnd(s, c)| <= i < |s| ==> s[i] == c
  {
    if s != [] && s[|s| - 1] == c {
      TrimEndRemovesOnly(s[..|s| - 1], c);
    }
  }

  /** The contig id of a header: its first space-separated token with '>' stripped from both ends. */
  function HeaderId(l: string): string
  {
    TrimEnd(TrimStart(FirstToken(l), '>'), '>')
  }

  /** An id holds no space and neither starts nor ends with '>'. */
  lemma HeaderIdShape(l: string)
    ensures ' ' !in HeaderId(l)
    ensures HeaderId(l) == [] || (HeaderId(l)[0] != '>' && HeaderId(l)[|HeaderId(l)| - 1] != '>')
  {
    var t := FirstToken(l);
    var u := TrimStart(t, '>');
    var id := TrimEnd(u, '>');
    FirstTokenSplit(l);
    TrimStartShape(t, '>');
    TrimEndShape(u, '>');
    TrimmedShape(t, u, id);
  }

  /** Trimming a suffix u of a space-free token t and then a prefix id of u leaves the trimmed ends in place. */
  lemma TrimmedShape(t: string, u: string, id: string)
    requires ' ' !in t
    requires |u| <= |t| && u == t[|t| - |u|..] && (u == [] || u[0] != '>')
    requires id <= u && (id == [] || id[|id| - 1] != '>')
    ensures ' ' !in id
    ensures id == [] || (id[0] != '>' && id[|id| - 1] != '>')
  {
    forall i | 0 <= i < |id| ensures id[i] != ' ' {
      assert id[i] == u[i] == t[|t| - |u| + i];
    }
    if id != [] {
      assert id[0] == u[0];
    }
  }

  /** The ids of the header lines, in order. */
  function HeaderIds(lines: seq<string>): seq<string>
  {
    if lines == [] then []
    else (if IsHeader(lines[0]) then [HeaderId(lines[0])] else []) + HeaderIds(lines[1..])
  }

  // ---------------------------------------------------------------------------
  // Contig blocks: a header and the residue lines up to the next header

  /** Number of residues on the lines before the next header. */
  function RunLength(lines: seq<string>): nat
  {
    if lines == [] || IsHeader(lines[0]) then 0 else |lines[0]| + RunLength(lines[1..])
  }

  datatype Block = Block(id: string, length: nat)

  /** One block per header, in order, with the residue count of the lines below it. */
  function Blocks(lines: seq<string>): seq<Block>
  {
    if lines == [] then []
    else if IsHeader(lines[0]) then [Block(HeaderId(lines[0]), RunLength(lines[1..]))] + Blocks(lines[1..])
    else Blocks(lines[1..])
  }

  /**
   * The blocks whose size the source records: the sentinel s stays -1 until
   * the first residue line, so empty blocks before it are never written.
   */
  function SkipUnsized(bs: seq<Block>): (r: seq<Block>)
    ensures |r| <= |bs| && r == bs[|bs| - |r|..]
  {
    if bs == [] || bs[0].length > 0 then bs else SkipUnsized(bs[1..])
  }

  /** The sentinel drops exactly the leading empty blocks: all dropped blocks are empty, the first kept one is not. */
  lemma {:induction false} SkipUnsizedDropsEmpty(bs: seq<Block>)
    ensures SkipUnsized(bs) == [] || SkipUnsized(bs)[0].length > 0
    ensures forall k :: 0 <= k < |bs| - |SkipUnsized(bs)| ==> bs[k].length == 0
  {
    if bs != [] && bs[0].length == 0 {
      SkipUnsizedDropsEmpty(bs[1..]);
      forall k | 0 < k < |bs| - |SkipUnsized(bs)| ensures bs[k].length == 0 {
        assert bs[k] == bs[1..][k - 1];
      }
    }
  }

  /** Writes each block's length under its id, a later block overwriting an earlier one. */
  function SizeMap(bs: seq<Block>): map<string, int>
  {
    if bs == [] then map[] else SizeMap(bs[..|bs| - 1])[bs[|bs| - 1].id := bs[|bs| - 1].length]
  }

  /** What get_contig_size produces for a stream of stripped, non-empty lines. */
  function ContigSizes(lines: seq<string>): Outcome
  {
    if AllHeaders(lines) then Failed(NoContigs)
    else if !IsHeader(lines[0]) then Failed(MissingHeader)
    else Indexed(Index(HeaderIds(lines), SizeMap(SkipUnsized(Blocks(lines)))))
  }

  // ---------------------------------------------------------------------------
  // get_contig_size

  /**
   * The state of get_contig_size after reading the lines p: the ids seen so
   * far, the sizes written so far, and the sentinel counter s (-1 while no
   * residue line has been read, else the residue count of the current contig).
   */
  ghost predicate Scanned(p: seq<string>, contigID: seq<string>, size: map<string, int>, s: int)
  {
    && contigID == HeaderIds(p)
    && s >= -1
    && (s == -1 <==> AllHeaders(p))
    && (s == -1 ==> size == map[])
    && (s != -1 && contigID == [] ==> !IsHeader(p[0]))
    && (s != -1 && contigID != [] ==> Recorded(p, contigID[|contigID| - 1], size, s))
  }

  /**
   * Once a residue line has been read under a header: size holds every
   * recorded block but the last, which is the current contig id with s residues.
   */
  ghost predicate Recorded(p: seq<string>, id: string, size: map<string, int>, s: int)
  {
    var sized := SkipUnsized(Blocks(p));
    && p != [] && IsHeader(p[0])
    && sized != []
    && size == SizeMap(sized[..|sized| - 1])
    && s == sized[|sized| - 1].length
    && sized[|sized| - 1].id == id
  }

  /**
   * Reads the lines once, keeping the residue count s of the current contig;
   * s == -1 means no residue line has been read yet.
   */
  method GetContigSize(lines: seq<string>) returns (out: Outcome)
    requires NonBlank(lines)
    ensures out == ContigSizes(lines)
  {
    var contigID: seq<string> := [];
    var size: map<string, int> := map[];
    var s := -1;
    for i := 0 to |lines|
      invariant Scanned(lines[..i], contigID, size, s)
    {
      var l := lines[i];
      assert lines[..i + 1] == lines[..i] + [l];
      if l[0] == '>' {
        if s != -1 {
          if contigID == [] {
            ScanAbort(lines, i, size, s);
            return Failed(MissingHeader);
          }
          ScanHeader(lines[..i], l, contigID, size, s);
          size := size[contigID[|contigID| - 1] := s];
          s := 0;
        } else {
          ScanFirstHeaders(lines[..i], l, contigID, size);
        }
        contigID := contigID + [HeaderId(l)];
      } else {
        if s == -1 {
          ScanFirstResidue(lines[..i], l, contigID, size);
          s := 0;
        } else {
          ScanResidue(lines[..i], l, contigID, size, s);
        }
        s := s + |l|;
      }
    }
    assert lines[..|lines|] == lines;
    ScanEnd(lines, contigID, size, s);
    if s == -1 {
      return Failed(NoContigs);
    }
    if contigID == [] {
      return Failed(MissingHeader);
    }
    size := size[contigID[|contigID| - 1] := s];
    return Indexed(Index(contigID, size));
  }

  /** A residue line before any header makes the stream fail as soon as a header follows. */
  lemma ScanAbort(lines: seq<string>, i: int, size: map<string, int>, s: int)
    requires 0 <= i < |lines| && Scanned(lines[..i], [], size, s) && s != -1
    ensures ContigSizes(lines) == Failed(MissingHeader)
  {
    assert lines[..i][0] == lines[0];
    if AllHeaders(lines) {
      AllHeadersPrefix(lines, i);
    }
  }

  /** After the last line: the verdict of get_contig_size, with the pending size written. */
  lemma ScanEnd(lines: seq<string>, contigID: seq<string>, size: map<string, int>, s: int)
    requires Scanned(lines, contigID, size, s)
    ensures ContigSizes(lines) ==
      if s == -1 then Failed(NoContigs)
      else if contigID == [] then Failed(MissingHeader)
      else Indexed(Index(contigID, size[contigID[|contigID| - 1] := s]))
  {
    if s != -1 && contigID != [] {
      SizeMapSnoc(SkipUnsized(Blocks(lines)));
    }
  }

  lemma AllHeadersPrefix(lines: seq<string>, i: int)
    requires 0 <= i <= |lines| && AllHeaders(lines)
    ensures AllHeaders(lines[..i])
  {
    forall j | 0 <= j < i ensures IsHeader(lines[..i][j]) {
      assert lines[..i][j] == lines[j];
    }
  }

  /** A header line read before any residue line only opens a new contig. */
  lemma ScanFirstHeaders(p: seq<string>, l: string, contigID: seq<string>, size: map<string, int>)
    requires Scanned(p, contigID, size, -1) && IsHeader(l)
    ensures Scanned(p + [l], contigID + [HeaderId(l)], size, -1)
  {
    HeaderIdsSnoc(p, l);
    AllHeadersSnoc(p, l);
  }

  /** A later header line records the pending size of the current contig and opens a new one. */
  lemma ScanHeader(p: seq<string>, l: string, contigID: seq<string>, size: map<string, int>, s: int)
    requires Scanned(p, contigID, size, s) && IsHeader(l)
    requires s != -1 && contigID != []
    ensures Scanned(p + [l], contigID + [HeaderId(l)], size[contigID[|contigID| - 1] := s], 0)
  {
    HeaderIdsSnoc(p, l);
    AllHeadersSnoc(p, l);
    RecordHeader(p, l, contigID[|contigID| - 1], size, s);
  }

  /** The first residue line starts the count of the current contig, if there is one. */
  lemma ScanFirstResidue(p: seq<string>, l: string, contigID: seq<string>, size: map<string, int>)
    requires Scanned(p, contigID, size, -1) && !IsHeader(l) && l != []
    ensures Scanned(p + [l], contigID, size, |l|)
  {
    HeaderIdsSnoc(p, l);
    AllHeadersSnoc(p, l);
    if contigID == [] {
      assert p != [] ==> HeaderIds(p) != [];
    } else {
      RecordFirstResidue(p, l, contigID);
    }
  }

  /** A further residue line adds its length to the current contig. */
  lemma ScanResidue(p: seq<string>, l: string, contigID: seq<string>, size: map<string, int>, s: int)
    requires Scanned(p, contigID, size, s) && !IsHeader(l) && l != [] && s != -1
    ensures Scanned(p + [l], contigID, size, s + |l|)
  {
    HeaderIdsSnoc(p, l);
    AllHeadersSnoc(p, l);
    assert (p + [l])[0] == p[0];
    if contigID != [] {
      RecordResidue(p, l, contigID[|contigID| - 1], size, s);
    }
  }

  lemma RecordHeader(p: seq<string>, l: string, id: string, size: map<string, int>, s: int)
    requires Recorded(p, id, size, s) && IsHeader(l)
    ensures Recorded(p + [l], HeaderId(l), size[id := s], 0)
  {
    BlocksSnocHeader(p, l);
    SkipSnoc(Blocks(p), Block(HeaderId(l), 0));
    SizeMapSnoc(SkipUnsized(Blocks(p)));
    assert (p + [l])[0] == p[0];
  }

  lemma RecordFirstResidue(p: seq<string>, l: string, contigID: seq<string>)
    requires AllHeaders(p) && contigID == HeaderIds(p) && contigID != []
    requires !IsHeader(l) && l != []
    ensures Recorded(p + [l], contigID[|contigID| - 1], map[], |l|)
  {
    BlocksEmpty(p);
    BlockIds(p);
    AllHeadersUnsized(p);
    SizedLast(Blocks(p));
    BlocksSnocResidue(p, l);
    SkipGrow(Blocks(p), |l|);
    assert p != [];
    assert (p + [l])[0] == p[0];
  }

  lemma RecordResidue(p: seq<string>, l: string, id: string, size: map<string, int>, s: int)
    requires Recorded(p, id, size, s) && !IsHeader(l) && l != []
    ensures Recorded(p + [l], id, size, s + |l|)
  {
    SizedLast(Blocks(p));
    BlocksSnocResidue(p, l);
    SkipGrow(Blocks(p), |l|);
    assert (p + [l])[0] == p[0];
  }

  // ---------------------------------------------------------------------------
  // Facts about the specification

  lemma {:induction false} HeaderIdsSnoc(p: seq<string>, l: string)
    ensures HeaderIds(p + [l]) == HeaderIds(p) + (if IsHeader(l) then [HeaderId(l)] else [])
  {
    if p == [] {
      assert [l][1..] == [];
    } else {
      var q := p[1..];
      assert (p + [l])[1..] == q + [l] && (p + [l])[0] == p[0];
      HeaderIdsSnoc(q, l);
      var hd := if IsHeader(p[0]) then [HeaderId(p[0])] else [];
      assert HeaderIds(p) == hd + HeaderIds(q);
      assert HeaderIds(p + [l]) == hd + HeaderIds(q + [l]);
    }
  }

  lemma {:induction false} RunLengthSnoc(p: seq<string>, l: string)
    ensures NoHeader(p) ==> RunLength(p + [l]) == RunLength(p) + (if IsHeader(l) then 0 else |l|)
    ensures !NoHeader(p) ==> RunLength(p + [l]) == RunLength(p)
  {
    if p == [] {
      assert [l][1..] == [];
    } else {
      assert (p + [l])[1..] == p[1..] + [l];
      RunLengthSnoc(p[1..], l);
      if !IsHeader(p[0]) {
        assert NoHeader(p) <==> NoHeader(p[1..]) by {
          if NoHeader(p[1..]) {
            forall i | 0 <= i < |p| ensures !IsHeader(p[i]) {
              if i > 0 { assert p[i] == p[1..][i - 1]; }
            }
          }
        }
      }
    }
  }

  lemma AllHeadersSnoc(p: seq<string>, l: string)
    ensures AllHeaders(p + [l]) <==> AllHeaders(p) && IsHeader(l)
  {
    if AllHeaders(p) && IsHeader(l) {
      forall i | 0 <= i < |p| + 1 ensures IsHeader((p + [l])[i]) {
        if i < |p| { assert (p + [l])[i] == p[i]; }
      }
    }
    if AllHeaders(p + [l]) {
      assert (p + [l])[|p|] == l;
      forall i | 0 <= i < |p| ensures IsHeader(p[i]) {
        assert (p + [l])[i] == p[i];
      }
    }
  }

  lemma NoHeaderCons(p: seq<string>)
    requires p != []
    ensures NoHeader(p) <==> !IsHeader(p[0]) && NoHeader(p[1..])
  {
    if !IsHeader(p[0]) && NoHeader(p[1..]) {
      forall i | 0 <= i < |p| ensures !IsHeader(p[i]) {
        if i > 0 { assert p[i] == p[1..][i - 1]; }
      }
    }
    if NoHeader(p) {
      forall i | 0 <= i < |p| - 1 ensures !IsHeader(p[1..][i]) {
        assert p[1..][i] == p[i + 1];
      }
    }
  }

  /** A stream has no block exactly when it has no header. */
  lemma {:induction false} BlocksEmpty(p: seq<string>)
    ensures Blocks(p) == [] <==> NoHeader(p)
  {
    if p != [] {
      BlocksEmpty(p[1..]);
      NoHeaderCons(p);
    }
  }

  /** The last block grown by n residues; nothing when there is no block yet. */
  function GrowLast(bs: seq<Block>, n: nat): (r: seq<Block>)
    ensures |r| == |bs|
  {
    if bs == [] then [] else bs[..|bs| - 1] + [Block(bs[|bs| - 1].id, bs[|bs| - 1].length + n)]
  }

  lemma {:induction false} BlocksSnocHeader(p: seq<string>, l: string)
    requires IsHeader(l)
    ensures Blocks(p + [l]) == Blocks(p) + [Block(HeaderId(l), 0)]
  {
    if p == [] {
      assert [l][1..] == [];
    } else {
      assert (p + [l])[1..] == p[1..] + [l];
      BlocksSnocHeader(p[1..], l);
      RunLengthSnoc(p[1..], l);
    }
  }

  lemma {:induction false} BlocksSnocResidue(p: seq<string>, l: string)
    requires !IsHeader(l)
    ensures Blocks(p + [l]) == GrowLast(Blocks(p), |l|)
  {
    if p == [] {
      assert [l][1..] == [];
    } else {
      assert (p + [l])[1..] == p[1..] + [l];
      BlocksSnocResidue(p[1..], l);
      if IsHeader(p[0]) {
        RunLengthSnoc(p[1..], l);
        BlocksEmpty(p[1..]);
        var b := Block(HeaderId(p[0]), RunLength(p[1..]));
        var bs := Blocks(p[1..]);
        assert Blocks(p) == [b] + bs;
        if bs != [] {
          assert ([b] + bs)[..|bs|] == [b] + bs[..|bs| - 1];
        }
      }
    }
  }

  /** The blocks carry the header ids in header order. */
  lemma {:induction false} BlockIds(lines: seq<string>)
    ensures |Blocks(lines)| == |HeaderIds(lines)|
    ensures forall k :: 0 <= k < |Blocks(lines)| ==> Blocks(lines)[k].id == HeaderIds(lines)[k]
  {
    if lines != [] {
      BlockIds(lines[1..]);
    }
  }

  /** Before any residue line every block is empty, so none is recorded. */
  lemma {:induction false} AllHeadersUnsized(lines: seq<string>)
    requires AllHeaders(lines)
    ensures forall k :: 0 <= k < |Blocks(lines)| ==> Blocks(lines)[k].length == 0
    ensures SkipUnsized(Blocks(lines)) == []
  {
    if lines != [] {
      var t := lines[1..];
      assert AllHeaders(t) by {
        forall i | 0 <= i < |t| ensures IsHeader(t[i]) {
          assert t[i] == lines[i + 1];
        }
      }
      AllHeadersUnsized(t);
      assert RunLength(t) == 0 by {
        assert t == [] || IsHeader(t[0]);
      }
      var bs := Blocks(lines);
      assert bs == [Block(HeaderId(lines[0]), 0)] + Blocks(t);
      assert bs[1..] == Blocks(t);
      forall k | 0 < k < |bs| ensures bs[k].length == 0 {
        assert bs[k] == Blocks(t)[k - 1];
      }
    }
  }

  /** The recorded blocks of a stream split into those before its last block and, if recorded, that block. */
  lemma SizedLast(bs: seq<Block>)
    requires bs != []
    ensures var init, last := bs[..|bs| - 1], bs[|bs| - 1];
      SkipUnsized(bs) == if SkipUnsized(init) == [] && last.length == 0 then [] else SkipUnsized(init) + [last]
  {
    assert bs == bs[..|bs| - 1] + [bs[|bs| - 1]];
    SkipSnoc(bs[..|bs| - 1], bs[|bs| - 1]);
  }

  /** Growing the last block by a positive count makes it recorded. */
  lemma SkipGrow(bs: seq<Block>, n: nat)
    requires bs != [] && n > 0
    ensures var init, last := bs[..|bs| - 1], bs[|bs| - 1];
      SkipUnsized(GrowLast(bs, n)) == SkipUnsized(init) + [Block(last.id, last.length + n)]
  {
    SkipSnoc(bs[..|bs| - 1], Block(bs[|bs| - 1].id, bs[|bs| - 1].length + n));
  }

  /** The map of a non-empty block list is that of all but its last block, updated by the last. */
  lemma SizeMapSnoc(bs: seq<Block>)
    requires bs != []
    ensures SizeMap(bs) == SizeMap(bs[..|bs| - 1])[bs[|bs| - 1].id := bs[|bs| - 1].length]
  {
  }

  lemma {:induction false} SkipSnoc(bs: seq<Block>, b: Block)
    ensures SkipUnsized(bs + [b]) ==
      if SkipUnsized(bs) == [] && b.length == 0 then [] else SkipUnsized(bs) + [b]
  {
    if bs == [] {
      assert [b][1..] == [];
    } else {
      assert (bs + [b])[1..] == bs[1..] + [b];
      SkipSnoc(bs[1..], b);
    }
  }

  /**
   * The recorded size of an id is the length of its LAST recorded block: a
   * later header with the same id overwrites the earlier size.
   */
  lemma {:induction false} SizeMapLastWins(bs: seq<Block>, k: int)
    requires 0 <= k < |bs|
    requires forall j :: k < j < |bs| ==> bs[j].id != bs[k].id
    ensures bs[k].id in SizeMap(bs) && SizeMap(bs)[bs[k].id] == bs[k].length
  {
    if k < |bs| - 1 {
      var init := bs[..|bs| - 1];
      assert init[k] == bs[k];
      SizeMapLastWins(init, k);
    }
  }

  /** Every recorded id is the id of some recorded block. */
  lemma {:induction false} SizeMapKeys(bs: seq<Block>, id: string)
    requires id in SizeMap(bs)
    ensures exists k :: 0 <= k < |bs| && bs[k].id == id
  {
    var init := bs[..|bs| - 1];
    if id != bs[|bs| - 1].id {
      SizeMapKeys(init, id);
      var k :| 0 <= k < |init| && init[k].id == id;
      assert bs[k] == init[k];
    }
  }

  /** Every recorded size is a residue count of a listed id. */
  lemma IndexSound(lines: seq<string>)
    requires ContigSizes(lines).Indexed?
    ensures var index := ContigSizes(lines).index;
      forall id :: id in index.size ==> index.size[id] >= 0 && id in index.ids
  {
    var bs := Blocks(lines);
    var sized := SkipUnsized(bs);
    BlockIds(lines);
    SizeMapNonNegative(sized);
    forall id | id in SizeMap(sized) ensures id in HeaderIds(lines) {
      SizeMapKeys(sized, id);
      var k :| 0 <= k < |sized| && sized[k].id == id;
      assert sized[k] == bs[|bs| - |sized| + k];
    }
  }

  lemma {:induction false} SizeMapNonNegative(bs: seq<Block>)
    ensures forall id :: id in SizeMap(bs) ==> SizeMap(bs)[id] >= 0
  {
    if bs != [] {
      SizeMapNonNegative(bs[..|bs| - 1]);
    }
  }

  /** Headers before the first residue line get no size: of h1, h2, r only h2 is recorded. */
  lemma LeadingEmptyContigUnsized(h1: string, h2: string, r: string)
    requires IsHeader(h1) && IsHeader(h2) && r != [] && !IsHeader(r)
    ensures ContigSizes([h1, h2, r]) == Indexed(Index([HeaderId(h1), HeaderId(h2)], map[HeaderId(h2) := |r|]))
  {
    var lines := [h1, h2, r];
    var bs := LeadingBlocks(h1, h2, r);
    assert SizeMap(SkipUnsized(bs)) == map[HeaderId(h2) := |r|] by {
      assert SkipUnsized(bs) == [bs[1]] by { assert bs[1..] == [bs[1]]; }
      assert [bs[1]][..0] == [];
    }
    assert !AllHeaders(lines) by { assert !IsHeader(lines[2]); }
  }

  /** The blocks and ids of h1, h2, r. */
  lemma LeadingBlocks(h1: string, h2: string, r: string) returns (bs: seq<Block>)
    requires IsHeader(h1) && IsHeader(h2) && r != [] && !IsHeader(r)
    ensures bs == Blocks([h1, h2, r]) == [Block(HeaderId(h1), 0), Block(HeaderId(h2), |r|)]
    ensures HeaderIds([h1, h2, r]) == [HeaderId(h1), HeaderId(h2)]
  {
    var lines := [h1, h2, r];
    assert lines[1..] == [h2, r] && lines[2..] == [r] && [r][1..] == [];
    bs := [Block(HeaderId(h1), 0), Block(HeaderId(h2), |r|)];
    assert RunLength([r]) == |r|;
    assert Blocks([r]) == [];
    assert Blocks([h2, r]) == [bs[1]];
    assert RunLength([h2, r]) == 0;
    assert HeaderIds([r]) == [];
    assert HeaderIds([h2, r]) == [HeaderId(h2)];
  }

  /** After the first residue line an empty contig is recorded with size 0: h1, r, h2 records both. */
  lemma EmptyContigAfterSequence(h1: string, r: string, h2: string)
    requires IsHeader(h1) && IsHeader(h2) && r != [] && !IsHeader(r)
    ensures ContigSizes([h1, r, h2])
         == Indexed(Index([HeaderId(h1), HeaderId(h2)], map[HeaderId(h1) := |r|][HeaderId(h2) := 0]))
  {
    var lines := [h1, r, h2];
    var bs := TrailingBlocks(h1, r, h2);
    assert SkipUnsized(bs) == bs;
    assert bs[..1] == [bs[0]] && bs[..1][..0] == [];
    assert SizeMap([bs[0]]) == map[HeaderId(h1) := |r|];
    assert SizeMap(bs) == map[HeaderId(h1) := |r|][HeaderId(h2) := 0];
    assert !AllHeaders(lines) by { assert !IsHeader(lines[1]); }
  }

  /** The blocks and ids of h1, r, h2. */
  lemma TrailingBlocks(h1: string, r: string, h2: string) returns (bs: seq<Block>)
    requires IsHeader(h1) && IsHeader(h2) && r != [] && !IsHeader(r)
    ensures bs == Blocks([h1, r, h2]) == [Block(HeaderId(h1), |r|), Block(HeaderId(h2), 0)]
    ensures HeaderIds([h1, r, h2]) == [HeaderId(h1), HeaderId(h2)]
  {
    var lines := [h1, r, h2];
    assert lines[1..] == [r, h2] && lines[2..] == [h2] && [h2][1..] == [];
    bs := [Block(HeaderId(h1), |r|), Block(HeaderId(h2), 0)];
    assert Blocks([h2]) == [bs[1]];
    assert Blocks([r, h2]) == [bs[1]];
    assert RunLength([r, h2]) == |r|;
    assert HeaderIds([h2]) == [HeaderId(h2)];
    assert HeaderIds([r, h2]) == [HeaderId(h2)];
  }
}
