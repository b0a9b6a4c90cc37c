/**
 * How `BrainLibrary.initialize` turns the documents directory into indexed
 * chunks: only `.txt` and `.md` files are read, each file's text is split on
 * blank lines ("\n\n"), pieces that are blank after trimming are dropped, and
 * every remaining piece is indexed trimmed, tagged with its file name.
 *
 * The directory is given as its listing: a sequence of entries, each with its
 * name and the outcome of reading it. A read that throws ends the whole load,
 * because the loop sits inside a single try/catch.
 */
module Chunking {
  import opened Text

  /** One indexed section of a document, as pushed onto `indexedDocs`. */
  datatype Chunk = Chunk(content: string, source: string)

  /** The outcome of `readFileSync` on one entry: its text, or a thrown error. */
  datatype ReadResult = Readable(text: string) | Unreadable

  /** One entry of the documents directory listing. */
  datatype DirEntry = DirEntry(name: string, read: ReadResult)

  /** The file-name test applied to the listing. */
  predicate IsIndexable(name: string) {
    EndsWith(name, ".txt") || EndsWith(name, ".md")
  }

  /** The listing filtered to indexable names, in listing order: a listing of
      indexable names only is kept whole, as it is. */
  function IndexableFiles(dir: seq<DirEntry>): (r: seq<DirEntry>)
    ensures |r| <= |dir|
    ensures forall e :: e in r <==> e in dir && IsIndexable(e.name)
    ensures (forall e :: e in dir ==> IsIndexable(e.name)) ==> r == dir
  {
    if dir == [] then []
    else if IsIndexable(dir[0].name) then [dir[0]] + IndexableFiles(dir[1..])
    else IndexableFiles(dir[1..])
  }

  /** The filter keeps listing order: filtering two listings one after the
      other is filtering their concatenation. */
  lemma {:induction false} IndexableFilesAppend(a: seq<DirEntry>, b: seq<DirEntry>)
    ensures IndexableFiles(a + b) == IndexableFiles(a) + IndexableFiles(b)
    decreases |a|
  {
    if a == [] {
      assert a + b == b;
    } else {
      assert (a + b)[0] == a[0];
      assert (a + b)[1..] == a[1..] + b;
      IndexableFilesAppend(a[1..], b);
    }
  }

  /** An entry whose name is not indexable is never looked at: removing it from
      the listing changes nothing. */
  lemma {:induction false} UnindexableIgnored(before: seq<DirEntry>, e: DirEntry, after: seq<DirEntry>)
    requires !IsIndexable(e.name)
    ensures IndexableFiles(before + [e] + after) == IndexableFiles(before + after)
    decreases |before|
  {
    if before == [] {
      assert before + [e] + after == [e] + after && before + after == after;
      assert ([e] + after)[1..] == after;
    } else {
      assert (before + [e] + after)[1..] == before[1..] + [e] + after;
      assert (before + after)[1..] == before[1..] + after;
      UnindexableIgnored(before[1..], e, after);
    }
  }

  /** The sections kept by `filter(s => s.trim())`, in order: `s.trim()` is
      truthy exactly when `s` is not all white space (`TrimEmptyIff`). */
  function NonBlank(sections: seq<string>): seq<string> {
    if sections == [] then []
    else (if !AllSpace(sections[0]) then [sections[0]] else []) + NonBlank(sections[1..])
  }

  /** The filter keeps exactly the sections that are not all white space. */
  lemma {:induction false} NonBlankMembers(sections: seq<string>)
    ensures forall p :: p in NonBlank(sections) <==> p in sections && !AllSpace(p)
    decreases |sections|
  {
    if sections != [] {
      NonBlankMembers(sections[1..]);
      assert sections == [sections[0]] + sections[1..];
    }
  }

  /** The chunks pushed for the kept sections of one file. */
  function MakeChunks(name: string, sections: seq<string>): (r: seq<Chunk>)
    ensures |r| == |sections|
  {
    if sections == [] then []
    else [Chunk(Trim(sections[0]), name)] + MakeChunks(name, sections[1..])
  }

  /** The `k`-th chunk is the `k`-th kept section, trimmed, tagged with the name. */
  lemma {:induction false} MakeChunksAt(name: string, sections: seq<string>, k: int)
    requires 0 <= k < |sections|
    ensures MakeChunks(name, sections)[k] == Chunk(Trim(sections[k]), name)
    decreases k
  {
    var tail := MakeChunks(name, sections[1..]);
    assert MakeChunks(name, sections) == [Chunk(Trim(sections[0]), name)] + tail;
    if k > 0 {
      MakeChunksAt(name, sections[1..], k - 1);
      assert sections[1..][k - 1] == sections[k];
    }
  }


  /** The chunks one file contributes. */
  function FileChunks(name: string, text: string): seq<Chunk> {
    MakeChunks(name, NonBlank(Sections(text)))
  }

  /** The chunks a load appends, file after file, until the first file whose read
      throws: the catch ends the loop, and what was pushed before stays. */
  function LoadChunks(files: seq<DirEntry>): seq<Chunk> {
    if files == [] then []
    else match files[0].read
      case Unreadable => []
      case Readable(text) => FileChunks(files[0].name, text) + LoadChunks(files[1..])
  }

  /** The chunks loading a whole directory listing appends. */
  function DirectoryChunks(dir: seq<DirEntry>): seq<Chunk> {
    LoadChunks(IndexableFiles(dir))
  }

  /** A chunk as indexing leaves it: non-empty, equal to its own trim, and free of
      blank-line separators. */
  predicate WellFormed(c: Chunk) {
    c.content != [] && Trim(c.content) == c.content && NoSeparator(c.content)
  }

  /** A trimmed piece of a text without separators has none either. */
  lemma NoSeparatorInTrim(p: string)
    requires NoSeparator(p)
    ensures NoSeparator(Trim(p))
  {
    var r := Trim(p);
    var a := LeadingSpaces(p);
    forall i | 0 <= i < |r| ensures !SeparatorAt(r, i) {
      assert !SeparatorAt(p, a + i);
      if i + 1 < |r| {
        assert r[i] == p[a + i] && r[i + 1] == p[a + i + 1];
      }
    }
  }

  /** A kept section without separators becomes a well-formed chunk. */
  lemma KeptSectionWellFormed(p: string, name: string)
    requires NoSeparator(p) && !AllSpace(p)
    ensures WellFormed(Chunk(Trim(p), name))
  {
    TrimEmptyIff(p);
    TrimIdempotent(p);
    NoSeparatorInTrim(p);
  }

  /** Every chunk of a file is well formed and carries the file's name. */
  lemma FileChunksWellFormed(name: string, text: string)
    ensures forall c :: c in FileChunks(name, text) ==> WellFormed(c) && c.source == name
  {
    var sections := Sections(text);
    var kept := NonBlank(sections);
    var chunks := MakeChunks(name, kept);
    SectionsShape(text);
    NonBlankMembers(sections);
    forall c | c in chunks ensures WellFormed(c) && c.source == name {
      var k :| 0 <= k < |chunks| && c == chunks[k];
      MakeChunksAt(name, kept, k);
      var p := kept[k];
      assert p in kept;
      var j :| 0 <= j < |sections| && sections[j] == p;
      KeptSectionWellFormed(p, name);
    }
  }

  lemma {:induction false} NonBlankOfBlank(sections: seq<string>)
    requires AllBlank(sections)
    ensures NonBlank(sections) == []
    decreases |sections|
  {
    if sections != [] {
      NonBlankOfBlank(sections[1..]);
    }
  }

  /** A file contributes no chunk exactly when its text is all white space. */
  lemma FileChunksEmptyIff(name: string, text: string)
    ensures FileChunks(name, text) == [] <==> AllSpace(text)
  {
    var sections := Sections(text);
    var kept := NonBlank(sections);
    SectionsBlankIff(text);
    NonBlankMembers(sections);
    if !AllSpace(text) {
      var j :| 0 <= j < |sections| && !AllSpace(sections[j]);
      assert sections[j] in kept;
      assert |FileChunks(name, text)| == |kept| > 0;
    } else {
      NonBlankOfBlank(sections);
    }
  }

  /** The step of the push loop: pushing the `j`-th kept section's chunk after
      `done` keeps `done` followed by the chunks still to push equal to all the
      chunks appended to `start`. */
  lemma PushAdvance(start: seq<Chunk>, done: seq<Chunk>, name: string, sections: seq<string>, j: int)
    requires 0 <= j < |sections|
    requires start + MakeChunks(name, sections) == done + MakeChunks(name, sections[j..])
    ensures start + MakeChunks(name, sections) ==
      (done + [Chunk(Trim(sections[j]), name)]) + MakeChunks(name, sections[j + 1..])
  {
    assert sections[j..][0] == sections[j] && sections[j..][1..] == sections[j + 1..];
  }

  lemma {:induction false} MakeChunksAppend(name: string, a: seq<string>, b: seq<string>)
    ensures MakeChunks(name, a + b) == MakeChunks(name, a) + MakeChunks(name, b)
    decreases |a|
  {
    if a == [] {
      assert a + b == b;
    } else {
      assert (a + b)[0] == a[0];
      assert (a + b)[1..] == a[1..] + b;
      MakeChunksAppend(name, a[1..], b);
    }
  }

  lemma {:induction false} NonBlankAppend(a: seq<string>, b: seq<string>)
    ensures NonBlank(a + b) == NonBlank(a) + NonBlank(b)
    decreases |a|
  {
    if a == [] {
      assert a + b == b;
    } else {
      assert (a + b)[0] == a[0];
      assert (a + b)[1..] == a[1..] + b;
      NonBlankAppend(a[1..], b);
    }
  }

  /** A file's chunks follow the order of its sections: a leading section cut off
      by the separator contributes its chunks before those of the rest. */
  lemma FileChunksOfPiece(name: string, p: string, rest: string)
    requires NoSeparator(p) && !EndsInNewline(p)
    ensures FileChunks(name, p + Separator + rest) == FileChunks(name, p) + FileChunks(name, rest)
  {
    SectionsOfPiece(p, rest);
    SectionsOfPlain(p);
    NonBlankAppend([p], Sections(rest));
    MakeChunksAppend(name, NonBlank([p]), NonBlank(Sections(rest)));
  }

  /** A text without a blank line is one chunk, trimmed, unless it is blank. */
  lemma FileChunksOfPlain(name: string, text: string)
    requires NoSeparator(text) && !AllSpace(text)
    ensures FileChunks(name, text) == [Chunk(Trim(text), name)]
  {
    SectionsOfPlain(text);
    TrimEmptyIff(text);
    assert [text][1..] == [];
    assert NonBlank([text]) == [text];
  }

  /** Loading from the `i`-th file on: that file's chunks, then the rest, unless
      its read throws, which ends the load. */
  lemma LoadChunksStep(files: seq<DirEntry>, i: int)
    requires 0 <= i < |files|
    ensures LoadChunks(files[i..]) == match files[i].read
      case Unreadable => []
      case Readable(text) => FileChunks(files[i].name, text) + LoadChunks(files[i + 1..])
  {
    assert files[i..][0] == files[i] && files[i..][1..] == files[i + 1..];
  }

  /** The loop step of a load: when the `i`-th file is readable, pushing its
      chunks after `done` keeps `done` followed by the rest of the load equal to
      the whole load appended to `start`. */
  lemma LoadAdvance(start: seq<Chunk>, done: seq<Chunk>, files: seq<DirEntry>, i: int)
    requires 0 <= i < |files| && files[i].read.Readable?
    requires start + LoadChunks(files) == done + LoadChunks(files[i..])
    ensures start + LoadChunks(files) ==
      (done + FileChunks(files[i].name, files[i].read.text)) + LoadChunks(files[i + 1..])
  {
    LoadChunksStep(files, i);
  }

  /** The loop exit of a load at an unreadable `i`-th file: what was pushed is
      the whole load appended to `start`. */
  lemma LoadHalt(start: seq<Chunk>, done: seq<Chunk>, files: seq<DirEntry>, i: int)
    requires 0 <= i <= |files| && (i < |files| ==> files[i].read.Unreadable?)
    requires start + LoadChunks(files) == done + LoadChunks(files[i..])
    ensures start + LoadChunks(files) == done
  {
    if i < |files| {
      LoadChunksStep(files, i);
    } else {
      assert files[i..] == [];
    }
  }

  /** Every loaded chunk is well formed and names one of the loaded files. */
  lemma {:induction false} LoadChunksSound(files: seq<DirEntry>)
    ensures forall c :: c in LoadChunks(files) ==>
      WellFormed(c) && exists j :: 0 <= j < |files| && files[j].name == c.source
    decreases |files|
  {
    if files != [] && files[0].read.Readable? {
      var own := FileChunks(files[0].name, files[0].read.text);
      FileChunksWellFormed(files[0].name, files[0].read.text);
      LoadChunksSound(files[1..]);
      forall c | c in LoadChunks(files)
        ensures WellFormed(c) && exists j :: 0 <= j < |files| && files[j].name == c.source
      {
        if c in own {
          assert files[0].name == c.source;
        } else {
          assert c in LoadChunks(files[1..]);
          var j :| 0 <= j < |files[1..]| && files[1..][j].name == c.source;
          assert files[j + 1].name == c.source;
        }
      }
    }
  }

  /** Loading stops at a file whose read throws: nothing after it is indexed. */
  lemma {:induction false} LoadStopsAtUnreadable(files: seq<DirEntry>, k: int)
    requires 0 <= k < |files| && files[k].read == Unreadable
    ensures LoadChunks(files) == LoadChunks(files[..k])
    decreases k
  {
    if k > 0 {
      assert files[..k][1..] == files[1..][..k - 1];
      LoadStopsAtUnreadable(files[1..], k - 1);
    }
  }

  /** Every chunk of a directory comes from an entry of the listing with an
      indexable name, and is well formed. */
  lemma DirectoryChunksSound(dir: seq<DirEntry>)
    ensures forall c :: c in DirectoryChunks(dir) ==>
      WellFormed(c) && IsIndexable(c.source) && exists e :: e in dir && e.name == c.source
  {
    var files := IndexableFiles(dir);
    LoadChunksSound(files);
    forall c | c in DirectoryChunks(dir)
      ensures IsIndexable(c.source) && exists e :: e in dir && e.name == c.source
    {
      var j :| 0 <= j < |files| && files[j].name == c.source;
      assert files[j] in files;
    }
  }
}
