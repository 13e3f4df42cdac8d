/**
 * `parse_whatsapp_folder` (src/processors.py:64-83): one row per uploaded
 * transcript, named after the file, with a failed read isolated to its own row.
 */
module ChatFolder {
  import opened Wrappers
  import opened Text
  import opened Transcript

  /**
   * One entry of `uploaded_files`: an uploaded file object (whose `name`
   * attribute may be empty) or a path on disk. `contents` is the decoded
   * transcript split into lines, or None when reading it raised.
   */
  datatype Upload =
    | Handle(name: string, contents: Option<seq<string>>)
    | LocalPath(path: string, contents: Option<seq<string>>)

  /** A row of the returned frame: `club_name`, `whatsapp_msgs`, `whatsapp_unique_senders`. */
  datatype ChatRow = ChatRow(clubName: string, whatsappMsgs: nat, whatsappUniqueSenders: nat)

  /** `os.path.basename` applied to a file object raises TypeError outside the `try`. */
  datatype FolderError = UnnamedUpload

  /** Index of the last `c` in `s`, or -1. */
  function LastIndex(s: string, c: char): (r: int)
    ensures -1 <= r < |s|
    ensures r >= 0 ==> s[r] == c
    ensures forall i :: r < i < |s| ==> s[i] != c
  {
    if s == [] then -1
    else if s[|s| - 1] == c then |s| - 1
    else LastIndex(s[..|s| - 1], c)
  }

  /** `posixpath.basename`: what follows the last '/'. */
  function Basename(path: string): string {
    path[LastIndex(path, '/') + 1..]
  }

  /**
   * `posixpath.splitext(p)[0]`: the path without its extension. The extension
   * starts at the last '.', provided that dot is in the final component and
   * some character other than '.' precedes it there (".bashrc" has none).
   */
  function StemOf(p: string): (root: string)
    ensures |root| <= |p| && root == p[..|root|]
    ensures |root| < |p| ==> p[|root|] == '.'
    ensures forall i :: |root| < i < |p| ==> p[i] != '.' && p[i] != '/'
  {
    var sep := LastIndex(p, '/');
    var dot := LastIndex(p, '.');
    if dot > sep && exists k :: sep + 1 <= k < dot && p[k] != '.' then p[..dot] else p
  }

  /** `getattr(f, "name", None) or os.path.basename(f)` (src/processors.py:67). */
  function FileName(f: Upload): Option<string> {
    match f
    case Handle(name, _) => if name != "" then Some(name) else None
    case LocalPath(path, _) => Some(Basename(path))
  }

  /** The row src/processors.py:68-82 builds for one file. */
  function FileRow(f: Upload): ChatRow
    requires FileName(f).Some?
  {
    var club := NormalizeName(StemOf(FileName(f).value));
    match f.contents
    case Some(lines) => ChatRow(club, MessageCount(Kept(lines)), |Senders(Kept(lines))|)
    case None => ChatRow(club, 0, 0)
  }

  /**
   * The loop of src/processors.py:65-83. The call fails only when some file
   * has no usable name; otherwise there is exactly one row per file, in
   * input order, each depending on its own file alone (duplicate club names
   * are not merged).
   */
  method ParseWhatsAppFolder(files: seq<Upload>) returns (r: Result<seq<ChatRow>, FolderError>)
    ensures r.Failure? <==> exists i :: 0 <= i < |files| && FileName(files[i]).None?
    ensures r.Success? ==> |r.value| == |files|
    ensures r.Success? ==> forall i :: 0 <= i < |files| ==>
      FileName(files[i]).Some? && r.value[i] == FileRow(files[i])
  {
    var rows: seq<ChatRow> := [];
    for i := 0 to |files|
      invariant |rows| == i
      invariant forall k :: 0 <= k < i ==> FileName(files[k]).Some? && rows[k] == FileRow(files[k])
    {
      var f := files[i];
      var fname := FileName(f);
      if fname.None? {
        return Failure(UnnamedUpload);
      }
      var row := ReadRow(f);
      ghost var before := rows;
      rows := rows + [row];
      forall k | 0 <= k < i + 1
        ensures FileName(files[k]).Some? && rows[k] == FileRow(files[k])
      {
        if k < i {
          assert rows[k] == before[k];
        }
      }
    }
    return Success(rows);
  }

  /** The body of the loop for a file with a name: its row, or zeros when reading failed. */
  method ReadRow(f: Upload) returns (row: ChatRow)
    requires FileName(f).Some?
    ensures row == FileRow(f)
  {
    var clubName := NormalizeName(StemOf(FileName(f).value));
    var msgs: nat, senders: nat;
    match f.contents {
      case Some(lines) =>
        msgs, senders := ParseTranscript(lines);
      case None =>
        msgs, senders := 0, 0;
    }
    row := ChatRow(clubName, msgs, senders);
  }

  /**
   * A file's row: the club is its normalised stem; a failed read gives zero
   * counts; a read transcript never has more senders than messages.
   */
  lemma FileRowFacts(f: Upload)
    requires FileName(f).Some?
    ensures FileRow(f).clubName == NormalizeName(StemOf(FileName(f).value))
    ensures f.contents.None? ==> FileRow(f).whatsappMsgs == 0 && FileRow(f).whatsappUniqueSenders == 0
    ensures FileRow(f).whatsappUniqueSenders <= FileRow(f).whatsappMsgs
  {
    if f.contents.Some? {
      SendersAtMostMessages(Kept(f.contents.value));
    }
  }

  /** `name.ext` loses exactly `.ext` when `name` has a character other than '.'. */
  lemma StemDropsExtension(base: string, ext: string)
    requires '/' !in base && '/' !in ext && '.' !in ext
    requires exists k :: 0 <= k < |base| && base[k] != '.'
    ensures StemOf(base + "." + ext) == base
  {
    var p := base + "." + ext;
    assert p[|base|] == '.';
    forall i | |base| < i < |p|
      ensures p[i] != '.' && p[i] != '/'
    {
      assert p[i] == ext[i - |base| - 1];
    }
    forall i | 0 <= i < |p|
      ensures p[i] != '/'
    {
      if i < |base| {
        assert p[i] == base[i];
      } else if i > |base| {
        assert p[i] == ext[i - |base| - 1];
      }
    }
    var k :| 0 <= k < |base| && base[k] != '.';
    assert p[k] == base[k];
    assert LastIndex(p, '/') == -1;
    assert LastIndex(p, '.') == |base|;
  }

  /** The upload "Drama_Club.txt" yields the club key "drama_club". */
  lemma DramaClubName()
    ensures NormalizeName(StemOf("Drama_Club.txt")) == "drama_club"
  {
    assert "Drama_Club"[0] != '.';
    StemDropsExtension("Drama_Club", "txt");
    assert "Drama_Club" + "." + "txt" == "Drama_Club.txt";
    StripOfBare("Drama_Club");
  }

  /** A dot-file keeps its whole name: ".club" has no extension. */
  lemma DotFileHasNoExtension()
    ensures StemOf(".club") == ".club"
  {
    var p := ".club";
    assert p[0] == '.' && p[1] != '.' && p[2] != '.' && p[3] != '.' && p[4] != '.';
    assert LastIndex(p, '.') == 0;
  }
}
