/**
 * The write-ahead log: a text file holding one serialised entry per line.
 * Appends extend the file, `clear` truncates it, and `readAll` splits it
 * into lines, drops the empty ones and parses each line on its own.
 * JSON serialisation is supplied from outside as a `Codec`.
 */
module Wal {
  import opened Wrappers
  import opened Types
  import Text
  import Seqs

  /** An entry's `op`; `Other` stands for any other value a parsed line may carry. */
  datatype WalOp = Add | Delete | Other

  /** A log entry: an add carries the record, a delete carries the id; `ts` is when it was logged. */
  datatype WalEntry = WalEntry(op: WalOp, memory: Option<MemoryRecord>, id: Option<string>, ts: int)

  function AddEntry(m: MemoryRecord, ts: int): WalEntry {
    WalEntry(Add, Some(m), None, ts)
  }

  function DeleteEntry(id: string, ts: int): WalEntry {
    WalEntry(Delete, None, Some(id), ts)
  }

  /** `JSON.stringify` and `JSON.parse` for entries; `decode` answers None where parsing throws. */
  datatype Codec = Codec(encode: WalEntry -> string, decode: string -> Option<WalEntry>)

  /** What JSON.stringify of an object produces: a single line with a visible character. */
  predicate FitsOnOneLine(line: string) {
    && (forall j :: 0 <= j < |line| ==> line[j] != '\n')
    && !Text.IsBlank(line)
  }

  /** Parsing a serialised entry gives the entry back, and serialised entries fit on one line. */
  ghost predicate LawfulCodec(codec: Codec) {
    forall e :: codec.decode(codec.encode(e)) == Some(e) && FitsOnOneLine(codec.encode(e))
  }

  datatype LogError = MalformedLine(line: string)

  predicate IsNewline(c: char) {
    c == '\n'
  }

  /** The file text after appending `entries` in order to an empty file. */
  function Serialize(entries: seq<WalEntry>, encode: WalEntry -> string): string {
    if entries == [] then "" else encode(entries[0]) + "\n" + Serialize(entries[1..], encode)
  }

  /** Parses lines one by one; the first malformed line fails the whole read. */
  function DecodeLines(lines: seq<string>, decode: string -> Option<WalEntry>): (r: Result<seq<WalEntry>, LogError>)
    ensures r.Ok? ==> |r.value| == |lines| && forall k :: 0 <= k < |lines| ==> decode(lines[k]) == Some(r.value[k])
    ensures r.Err? ==> exists k :: 0 <= k < |lines| && decode(lines[k]).None? && r.error == MalformedLine(lines[k])
  {
    if lines == [] then Ok([])
    else match decode(lines[0])
      case None => Err(MalformedLine(lines[0]))
      case Some(e) =>
        match DecodeLines(lines[1..], decode)
        case Ok(es) => Ok([e] + es)
        case Err(err) => Err(err)
  }

  /** `readAll`: a missing or blank file is empty; otherwise every non-empty line must parse. */
  function ReadLog(file: Option<string>, decode: string -> Option<WalEntry>): (r: Result<seq<WalEntry>, LogError>)
    ensures file.None? || Text.IsBlank(file.value) ==> r == Ok([])
    ensures r.Err? ==> file.Some? && r.error.line != "" && r.error.line in Text.Split(file.value, IsNewline) && decode(r.error.line).None?
  {
    if file.None? || Text.IsBlank(file.value) then Ok([])
    else DecodeLines(Text.DropEmpty(Text.Split(file.value, IsNewline)), decode)
  }

  lemma {:induction false} SerializeAppend(a: seq<WalEntry>, b: seq<WalEntry>, encode: WalEntry -> string)
    ensures Serialize(a + b, encode) == Serialize(a, encode) + Serialize(b, encode)
  {
    if a == [] {
      assert a + b == b;
    } else {
      assert (a + b)[0] == a[0] && (a + b)[1..] == a[1..] + b;
      SerializeAppend(a[1..], b, encode);
    }
  }

  function EncodeAll(entries: seq<WalEntry>, encode: WalEntry -> string): (r: seq<string>)
    ensures |r| == |entries|
    ensures forall i :: 0 <= i < |entries| ==> r[i] == encode(entries[i])
  {
    seq(|entries|, i requires 0 <= i < |entries| => encode(entries[i]))
  }

  /** Splitting the file at newlines gives one piece per entry, then the empty piece after the last newline. */
  lemma {:induction false} SplitSerialized(entries: seq<WalEntry>, codec: Codec)
    requires LawfulCodec(codec)
    ensures Text.Split(Serialize(entries, codec.encode), IsNewline) == EncodeAll(entries, codec.encode) + [""]
  {
    if entries != [] {
      var line, rest := codec.encode(entries[0]), entries[1..];
      assert FitsOnOneLine(line);
      calc {
        Text.Split(Serialize(entries, codec.encode), IsNewline);
        == { assert Serialize(entries, codec.encode) == line + ['\n'] + Serialize(rest, codec.encode); }
        Text.Split(line + ['\n'] + Serialize(rest, codec.encode), IsNewline);
        == { Text.SplitPiece(line, '\n', Serialize(rest, codec.encode), IsNewline); }
        [line] + Text.Split(Serialize(rest, codec.encode), IsNewline);
        == { SplitSerialized(rest, codec); }
        [line] + (EncodeAll(rest, codec.encode) + [""]);
        == { assert EncodeAll(entries, codec.encode) == [line] + EncodeAll(rest, codec.encode); }
        EncodeAll(entries, codec.encode) + [""];
      }
    }
  }

  lemma {:induction false} DecodeEncoded(entries: seq<WalEntry>, codec: Codec)
    requires LawfulCodec(codec)
    ensures DecodeLines(EncodeAll(entries, codec.encode), codec.decode) == Ok(entries)
  {
    if entries != [] {
      DecodeEncoded(entries[1..], codec);
      assert EncodeAll(entries, codec.encode)[1..] == EncodeAll(entries[1..], codec.encode);
      assert [entries[0]] + entries[1..] == entries;
    }
  }

  lemma SerializedNotBlank(entries: seq<WalEntry>, codec: Codec)
    requires LawfulCodec(codec) && entries != []
    ensures !Text.IsBlank(Serialize(entries, codec.encode))
  {
    var first := codec.encode(entries[0]);
    assert FitsOnOneLine(first);
    var j :| 0 <= j < |first| && !Text.IsWhitespace(first[j]);
    assert Serialize(entries, codec.encode)[j] == first[j];
  }

  lemma EncodedLinesKept(entries: seq<WalEntry>, codec: Codec)
    requires LawfulCodec(codec)
    ensures Text.DropEmpty(EncodeAll(entries, codec.encode) + [""]) == EncodeAll(entries, codec.encode)
  {
    var lines := EncodeAll(entries, codec.encode);
    Seqs.FilterAppend(lines, [""], Text.NonEmpty);
    forall i | 0 <= i < |lines| ensures Text.NonEmpty(lines[i]) {
      assert FitsOnOneLine(codec.encode(entries[i]));
    }
    Seqs.FilterAll(lines, Text.NonEmpty);
  }

  /**
   * Line round trip: reading back a file produced by appends yields exactly
   * the appended entries, in append order.
   */
  lemma ReadSerialized(entries: seq<WalEntry>, codec: Codec)
    requires LawfulCodec(codec)
    ensures ReadLog(Some(Serialize(entries, codec.encode)), codec.decode) == Ok(entries)
  {
    if entries != [] {
      SerializedNotBlank(entries, codec);
      SplitSerialized(entries, codec);
      EncodedLinesKept(entries, codec);
      DecodeEncoded(entries, codec);
    }
  }

  /** A line that does not parse is not skipped: it fails the whole read. */
  lemma {:induction false} MalformedLineFails(lines: seq<string>, decode: string -> Option<WalEntry>, k: nat)
    requires k < |lines| && decode(lines[k]).None?
    ensures DecodeLines(lines, decode).Err?
  {
    if k > 0 && decode(lines[0]).Some? {
      MalformedLineFails(lines[1..], decode, k - 1);
    }
  }

  class WriteAheadLog {
    const codec: Codec
    /** The text of the log file. */
    var content: string
    /** The entries appended since the file was last cleared. */
    ghost var Entries: seq<WalEntry>

    ghost predicate Valid()
      reads this
    {
      LawfulCodec(codec) && content == Serialize(Entries, codec.encode)
    }

    /** Opens a log at a new path: the file is created empty. */
    constructor Create(codec: Codec)
      requires LawfulCodec(codec)
      ensures Valid() && this.codec == codec
      ensures Entries == [] && content == ""
    {
      this.codec := codec;
      content := "";
      Entries := [];
    }

    /** Opens a log file that a previous process left behind after appending `previous`. */
    constructor Reopen(codec: Codec, previous: seq<WalEntry>)
      requires LawfulCodec(codec)
      ensures Valid() && this.codec == codec
      ensures Entries == previous
    {
      this.codec := codec;
      content := Serialize(previous, codec.encode);
      Entries := previous;
    }

    /** Writes one entry and its newline at the end of the file. */
    method Append(entry: WalEntry)
      requires Valid()
      modifies this
      ensures Valid()
      ensures Entries == old(Entries) + [entry]
      ensures content == old(content) + codec.encode(entry) + "\n"
    {
      SerializeAppend(Entries, [entry], codec.encode);
      content := content + codec.encode(entry) + "\n";
      Entries := Entries + [entry];
    }

    method AppendAdd(m: MemoryRecord, now: int)
      requires Valid()
      modifies this
      ensures Valid()
      ensures Entries == old(Entries) + [AddEntry(m, now)]
    {
      Append(AddEntry(m, now));
    }

    method AppendDelete(id: string, now: int)
      requires Valid()
      modifies this
      ensures Valid()
      ensures Entries == old(Entries) + [DeleteEntry(id, now)]
    {
      Append(DeleteEntry(id, now));
    }

    /** Reads the file back: the appended entries, in append order. */
    method ReadAll() returns (r: Result<seq<WalEntry>, LogError>)
      requires Valid()
      ensures r == ReadLog(Some(content), codec.decode)
      ensures r == Ok(Entries)
    {
      ReadSerialized(Entries, codec);
      r := ReadLog(Some(content), codec.decode);
    }

    /** Truncates the file. */
    method Clear()
      requires Valid()
      modifies this
      ensures Valid()
      ensures Entries == [] && content == ""
    {
      content := "";
      Entries := [];
    }
  }
}
