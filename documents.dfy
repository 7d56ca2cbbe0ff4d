/** The documents tab of src/gui/tabs/documents_tab.py: which files of the
    documents directory the list shows, the path an item opens, and what
    opening an item ends in. The file system is an input: whether the
    manual exists, the directory listing, and the set of paths that exist. */
module Documents {
  import opened Wrappers
  import opened Text

  /** A path as its components; `os.path.join` puts the separator of the
      platform between them. */
  type Path = seq<string>

  /** The item standing for the manual (line 64). */
  const ManualLabel := "Manual e Termos de Uso"

  /** The manual's file name (line 62). */
  const ManualFile := "adf.rtf"

  /** Line 59. */
  const SupportedExtensions: seq<string> := [".rtf", ".txt", ".md", ".doc", ".docx"]

  /** `assets/docs/<name>` (lines 62, 67, 86-87). */
  function DocsPath(name: string): Path {
    ["assets", "docs", name]
  }

  /** Line 70: a directory file is listed when its lowercased name is not
      the manual's and ends with a supported extension. */
  predicate IsListed(file: string)
    ensures IsListed(file) ==> |file| >= 3 && Lower(file) != ManualFile
    ensures IsListed(file) ==> exists ext | ext in SupportedExtensions :: EndsWith(Lower(file), ext)
  {
    Lower(file) != ManualFile && exists k :: 0 <= k < |SupportedExtensions| && EndsWith(Lower(file), SupportedExtensions[k])
  }

  /** What `os.listdir` gives: the directory is absent (line 68), cannot
      be read (the exception of line 75), or lists its files in order. */
  datatype Directory = Absent | Unreadable | Listing(files: seq<string>)

  /** The directory files the list shows, in listing order. */
  function ListedFiles(files: seq<string>): (listed: seq<string>)
    ensures forall f :: f in listed <==> f in files && IsListed(f)
    decreases |files|
  {
    if files == [] then []
    else
      var init := files[..|files| - 1];
      var last := files[|files| - 1];
      assert files == init + [last];
      ListedFiles(init) + (if IsListed(last) then [last] else [])
  }

  /** The list after `load_documents` (lines 56-71): the manual label first
      when the manual exists, then the listed files. A directory that
      cannot be read leaves what was added before the exception. */
  function Shown(manualExists: bool, dir: Directory): (items: seq<string>)
    ensures |items| == (if manualExists then 1 else 0) + (if dir.Listing? then |ListedFiles(dir.files)| else 0)
    ensures forall d | d in items :: (manualExists && d == ManualLabel) || (dir.Listing? && d in dir.files && IsListed(d))
  {
    (if manualExists then [ManualLabel] else [])
    + (if dir.Listing? then ListedFiles(dir.files) else [])
  }

  /** `get_document_path` (lines 83-87). */
  function DocumentPath(item: string): (path: Path)
    ensures |path| == 3 && path[..2] == ["assets", "docs"]
    ensures item != ManualLabel ==> path[2] == item
    ensures item == ManualLabel ==> path[2] == ManualFile
  {
    if item == ManualLabel then DocsPath(ManualFile) else DocsPath(item)
  }

  /** What opening an item ends in: the viewer shows the path, or the
      warning of lines 123-127 names the missing path. */
  datatype OpenOutcome = Opened(path: Path) | NotFound(path: Path)

  /** Lines 104-107: an item opens exactly when its path exists. */
  function OpenResult(item: string, existing: set<Path>): (outcome: OpenOutcome)
    ensures outcome.path == DocumentPath(item)
    ensures outcome.Opened? <==> DocumentPath(item) in existing
  {
    var path := DocumentPath(item);
    if path in existing then Opened(path) else NotFound(path)
  }

  /** The lowercased label ends with none of the supported extensions. */
  lemma LabelNotListed()
    ensures !IsListed(ManualLabel)
  {
    var low := Lower(ManualLabel);
    assert low == "manual e termos de uso";
    forall k | 0 <= k < |SupportedExtensions|
      ensures !EndsWith(low, SupportedExtensions[k])
    {
      var ext := SupportedExtensions[k];
      assert ext[0] == '.';
      assert low[|low| - |ext|] != '.';
    }
  }

  /** The manual file itself, in any case, is never listed: it is shown
      only through its label. */
  lemma ManualFileNotListed(file: string)
    requires Lower(file) == ManualFile
    ensures !IsListed(file)
  {
  }

  /** Every listed file opens its own path in the documents directory, and
      the label opens the manual. */
  lemma ListedPath(file: string)
    requires IsListed(file)
    ensures DocumentPath(file) == DocsPath(file)
    ensures DocumentPath(ManualLabel) == DocsPath(ManualFile)
  {
    LabelNotListed();
  }

  /** The label comes first exactly when the manual exists, and appears
      nowhere else. */
  lemma ManualFirst(manualExists: bool, dir: Directory)
    ensures (|Shown(manualExists, dir)| > 0 && Shown(manualExists, dir)[0] == ManualLabel) <==> manualExists
    ensures ManualLabel in Shown(manualExists, dir) <==> manualExists
    ensures manualExists ==> Shown(manualExists, dir)[1..] == (if dir.Listing? then ListedFiles(dir.files) else [])
  {
    LabelNotListed();
    if dir.Listing? && ListedFiles(dir.files) != [] {
      assert ListedFiles(dir.files)[0] in ListedFiles(dir.files);
    }
  }

  /** The order of a listing is kept: the shown files are the listing
      with the unlisted ones taken out. */
  lemma {:induction false} ListedKeepsOrder(files: seq<string>, i: int, j: int)
    requires 0 <= i < j < |files| && IsListed(files[i]) && IsListed(files[j])
    ensures exists p, q :: 0 <= p < q < |ListedFiles(files)| && ListedFiles(files)[p] == files[i] && ListedFiles(files)[q] == files[j]
    decreases |files|
  {
    var init := files[..|files| - 1];
    if j < |files| - 1 {
      assert init[i] == files[i] && init[j] == files[j];
      ListedKeepsOrder(init, i, j);
      var p, q :| 0 <= p < q < |ListedFiles(init)| && ListedFiles(init)[p] == files[i] && ListedFiles(init)[q] == files[j];
      assert ListedFiles(files)[p] == files[i] && ListedFiles(files)[q] == files[j];
    } else {
      assert init[i] == files[i];
      assert files[i] in ListedFiles(init);
      var p :| 0 <= p < |ListedFiles(init)| && ListedFiles(init)[p] == files[i];
      var q := |ListedFiles(init)|;
      assert ListedFiles(files)[p] == files[i] && ListedFiles(files)[q] == files[j];
    }
  }

  predicate Distinct(s: seq<string>) {
    forall i, j :: 0 <= i < j < |s| ==> s[i] != s[j]
  }

  /** A listing without repeated names gives a list without repeated
      items. */
  lemma {:induction false} ListedDistinct(files: seq<string>)
    requires Distinct(files)
    ensures Distinct(ListedFiles(files))
    decreases |files|
  {
    if files != [] {
      var init := files[..|files| - 1];
      var last := files[|files| - 1];
      assert Distinct(init) by {
        forall i, j | 0 <= i < j < |init| ensures init[i] != init[j] {
          assert init[i] == files[i] && init[j] == files[j];
        }
      }
      ListedDistinct(init);
      assert last !in init by {
        forall i | 0 <= i < |init| ensures init[i] != last {
          assert init[i] == files[i];
        }
      }
    }
  }

  /** Loading shows each item once when the listing repeats no name, and
      every item opens a file of the listing or the manual. */
  lemma ShownDistinct(manualExists: bool, files: seq<string>)
    requires Distinct(files)
    ensures Distinct(Shown(manualExists, Listing(files)))
    ensures forall d | d in Shown(manualExists, Listing(files)) ::
      (d == ManualLabel && manualExists && DocumentPath(d) == DocsPath(ManualFile))
      || (d in files && DocumentPath(d) == DocsPath(d))
  {
    ListedDistinct(files);
    LabelNotListed();
    var shown := Shown(manualExists, Listing(files));
    if manualExists {
      forall i, j | 0 <= i < j < |shown| ensures shown[i] != shown[j] {
        if i == 0 {
          assert shown[j] in ListedFiles(files);
        } else {
          assert shown[i] == ListedFiles(files)[i - 1] && shown[j] == ListedFiles(files)[j - 1];
        }
      }
    } else {
      assert shown == ListedFiles(files);
    }
  }

  /** When every file of the listing and the manual still exist, every
      shown item opens. */
  lemma ShownItemsOpen(manualExists: bool, files: seq<string>, existing: set<Path>, item: string)
    requires manualExists ==> DocsPath(ManualFile) in existing
    requires forall f | f in files :: DocsPath(f) in existing
    requires item in Shown(manualExists, Listing(files))
    ensures OpenResult(item, existing) == Opened(DocumentPath(item))
  {
    LabelNotListed();
  }

  /** Lines 69-71: the loop over the listing, adding each listed file. */
  method FilterListed(files: seq<string>) returns (listed: seq<string>)
    ensures listed == ListedFiles(files)
  {
    listed := [];
    for i := 0 to |files|
      invariant listed == ListedFiles(files[..i])
    {
      ListedStep(files, i);
      if IsListed(files[i]) {
        listed := listed + [files[i]];
      }
    }
    assert files[..|files|] == files;
  }

  lemma ListedStep(files: seq<string>, i: int)
    requires 0 <= i < |files|
    ensures ListedFiles(files[..i + 1]) == ListedFiles(files[..i]) + (if IsListed(files[i]) then [files[i]] else [])
  {
    assert files[..i + 1][..i] == files[..i];
  }

  /** The documents tab: the items of the list, and the viewer, created on
      first use, with the path it shows. */
  class DocumentsTab {
    var documents: seq<string>
    var viewerCreated: bool
    var viewing: Path

    /** Lines 18-24: the tab loads the list when it is built. */
    constructor (manualExists: bool, dir: Directory)
      ensures documents == Shown(manualExists, dir)
      ensures !viewerCreated && viewing == []
    {
      viewerCreated := false;
      viewing := [];
      new;
      var warned := LoadDocuments(manualExists, dir);
    }

    /** `load_documents` (lines 53-81): the list is cleared, the label
        added when the manual exists, then each listed file in listing
        order. An unreadable directory ends in the warning of lines
        75-81. The list depends on the inputs alone, so reloading never
        duplicates an item. */
    method LoadDocuments(manualExists: bool, dir: Directory) returns (warned: bool)
      modifies this
      ensures documents == Shown(manualExists, dir)
      ensures warned <==> dir.Unreadable?
      ensures viewerCreated == old(viewerCreated) && viewing == old(viewing)
    {
      documents := [];
      if manualExists {
        documents := documents + [ManualLabel];
      }
      match dir
      case Absent =>
        return false;
      case Unreadable =>
        return true;
      case Listing(files) =>
        var listed := FilterListed(files);
        documents := documents + listed;
        return false;
    }

    /** `open_document` (lines 101-127): a missing path is reported and
        changes nothing; otherwise the viewer is created if need be and
        shows the path. */
    method OpenDocument(item: string, existing: set<Path>) returns (outcome: OpenOutcome)
      modifies this
      ensures outcome == OpenResult(item, existing)
      ensures documents == old(documents)
      ensures outcome.NotFound? ==> viewerCreated == old(viewerCreated) && viewing == old(viewing)
      ensures outcome.Opened? ==> viewerCreated && viewing == outcome.path
    {
      var path := DocumentPath(item);
      if path !in existing {
        return NotFound(path);
      }
      if !viewerCreated {
        viewerCreated := true;
      }
      viewing := path;
      return Opened(path);
    }

    /** `view_selected_document` (lines 89-99): without a selection the
        user is asked to select a document (`None`) and nothing changes;
        otherwise the selected item is opened. */
    method ViewSelectedDocument(selected: Option<string>, existing: set<Path>) returns (outcome: Option<OpenOutcome>)
      modifies this
      ensures selected.None? <==> outcome.None?
      ensures selected.Some? ==> outcome == Some(OpenResult(selected.value, existing))
      ensures documents == old(documents)
      ensures selected.None? ==> viewerCreated == old(viewerCreated) && viewing == old(viewing)
      ensures selected.Some? && outcome.value.NotFound? ==> viewerCreated == old(viewerCreated) && viewing == old(viewing)
      ensures selected.Some? && outcome.value.Opened? ==> viewerCreated && viewing == outcome.value.path
    {
      if selected.None? {
        return None;
      }
      var result := OpenDocument(selected.value, existing);
      return Some(result);
    }
  }
}
