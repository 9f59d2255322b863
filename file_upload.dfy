/**
  The firmware file picker: the size and extension checks a chosen file
  must pass, and the component state its drag, drop, change and remove
  handlers update. `alert` and the `onFileSelect` callback are recorded
  as the sequences of messages shown and files handed on.
 */
module FileSelection {
  import opened Basics

  /** The picked file: its name and its size in bytes. */
  datatype File = File(name: string, size: nat)

  /** The extension filter when the caller gives none. */
  const DEFAULT_ACCEPT := ".bin"
  const MEGABYTE := 1024 * 1024
  /** The size limit when the caller gives none: 50 MB. */
  const DEFAULT_MAX_SIZE := 50 * MEGABYTE

  // ---- string helpers ----

  predicate IsUpper(c: char) {
    'A' <= c <= 'Z'
  }

  /** One character of `toLowerCase()`, for ASCII letters. */
  function LowerChar(c: char): (d: char)
    ensures !IsUpper(d)
  {
    if IsUpper(c) then (c as int - 'A' as int + 'a' as int) as char else c
  }

  /** `s.toLowerCase()`, for ASCII letters: same length, no capital left. */
  function Lower(s: string): (r: string)
    ensures |r| == |s|
    ensures forall i :: 0 <= i < |r| ==> !IsUpper(r[i]) && r[i] == LowerChar(s[i])
  {
    seq(|s|, i requires 0 <= i < |s| => LowerChar(s[i]))
  }

  /** Lowering twice is lowering once. */
  lemma LowerIdempotent(s: string)
    ensures Lower(Lower(s)) == Lower(s)
  {
    var once := Lower(s);
    assert forall i :: 0 <= i < |once| ==> LowerChar(once[i]) == once[i];
  }

  /** `s.endsWith(suffix)`. */
  predicate EndsWith(s: string, suffix: string) {
    |suffix| <= |s| && s[|s| - |suffix|..] == suffix
  }

  /** A string ends with `suffix` exactly when it is something followed by `suffix`. */
  lemma EndsWithIff(s: string, suffix: string)
    ensures EndsWith(s, suffix) <==> exists p: string :: s == p + suffix
  {
    if EndsWith(s, suffix) {
      var p := s[..|s| - |suffix|];
      assert s == p + suffix;
    }
    if exists p: string :: s == p + suffix {
      var p: string :| s == p + suffix;
      assert s[|p|..] == suffix;
    }
  }

  /** `s.replace(c, "")` with a string pattern: only the first `c` goes. */
  function RemoveFirst(s: string, c: char): (r: string)
    ensures |r| == if c in s then |s| - 1 else |s|
    ensures c !in s ==> r == s
  {
    if c !in s then s
    else
      var i := IndexOf(s, c);
      s[..i] + s[i + 1..]
  }

  /** Whatever follows the first `c` is kept, later copies of `c` included. */
  lemma {:induction false} RemoveFirstSplit(p: string, q: string, c: char)
    requires c !in p
    ensures RemoveFirst(p + [c] + q, c) == p + q
  {
    IndexOfJoin(p, c, q);
  }

  // ---- handleFileSelection's checks ----

  /** `Math.round(maxSize / 1024 / 1024)`: the limit in whole megabytes, halves rounded up. */
  function Megabytes(bytes: nat): (mb: nat)
    ensures 2 * MEGABYTE * mb <= 2 * bytes + MEGABYTE < 2 * MEGABYTE * (mb + 1)
  {
    (2 * bytes + MEGABYTE) / (2 * MEGABYTE)
  }

  /** The extension test: no filter, or the lowered name ends with the filter minus its first dot. */
  predicate MatchesAccept(name: string, accept: string) {
    accept == "" || EndsWith(Lower(name), RemoveFirst(accept, '.'))
  }

  /** What happens to a chosen file: refused with an alert, or taken. */
  datatype Verdict = TooLarge(alert: string) | WrongType(alert: string) | Accepted

  function SizeAlert(maxSize: nat): string {
    "File size must be less than " + NatToString(Megabytes(maxSize)) + "MB"
  }

  function TypeAlert(accept: string): string {
    "Please select a " + accept + " file"
  }

  /**
    The checks of `handleFileSelection`: a file over the limit is refused
    whatever its name, a file of exactly the limit passes the size check,
    and a file of the right size is refused when its name fails the
    extension test; a file is taken exactly when it passes both.
   */
  function CheckFile(file: File, accept: string, maxSize: nat): (v: Verdict)
    ensures v.TooLarge? <==> file.size > maxSize
    ensures v.WrongType? <==> file.size <= maxSize && !MatchesAccept(file.name, accept)
    ensures v.Accepted? <==> file.size <= maxSize && MatchesAccept(file.name, accept)
    ensures v.TooLarge? ==> v.alert == SizeAlert(maxSize)
    ensures v.WrongType? ==> v.alert == TypeAlert(accept)
  {
    if file.size > maxSize then TooLarge(SizeAlert(maxSize))
    else if accept != "" && !EndsWith(Lower(file.name), RemoveFirst(accept, '.')) then WrongType(TypeAlert(accept))
    else Accepted
  }

  /**
    With the default filter and limit: capitals in the name do not matter
    ("FW.BIN" passes), the dot is not required ("firmwarebin" passes), a
    name that only contains ".bin" is refused, and the size alert names
    50 MB.
   */
  lemma DefaultChecks(size: nat)
    ensures size <= DEFAULT_MAX_SIZE ==> CheckFile(File("FW.BIN", size), DEFAULT_ACCEPT, DEFAULT_MAX_SIZE) == Accepted
    ensures size <= DEFAULT_MAX_SIZE ==> CheckFile(File("firmwarebin", size), DEFAULT_ACCEPT, DEFAULT_MAX_SIZE) == Accepted
    ensures size <= DEFAULT_MAX_SIZE ==>
      CheckFile(File("fw.bin.exe", size), DEFAULT_ACCEPT, DEFAULT_MAX_SIZE) == WrongType("Please select a .bin file")
    ensures size > DEFAULT_MAX_SIZE ==>
      CheckFile(File("FW.BIN", size), DEFAULT_ACCEPT, DEFAULT_MAX_SIZE) == TooLarge("File size must be less than 50MB")
  {
    DefaultMatches();
    DefaultSizeAlert();
    DefaultTypeAlert();
  }

  lemma DefaultTypeAlert()
    ensures TypeAlert(DEFAULT_ACCEPT) == "Please select a .bin file"
  {
  }

  /** Which of the example names the default filter lets through. */
  lemma DefaultMatches()
    ensures MatchesAccept("FW.BIN", DEFAULT_ACCEPT)
    ensures MatchesAccept("firmwarebin", DEFAULT_ACCEPT)
    ensures !MatchesAccept("fw.bin.exe", DEFAULT_ACCEPT)
  {
    DefaultFilter();
    LowerExamples();
    assert "fw.bin"[3..] == "bin";
    assert "firmwarebin"[8..] == "bin";
    assert "fw.bin.exe"[7..][0] == 'e';
  }

  lemma LowerExamples()
    ensures Lower("FW.BIN") == "fw.bin"
    ensures Lower("firmwarebin") == "firmwarebin"
    ensures Lower("fw.bin.exe") == "fw.bin.exe"
  {
  }

  /** The default filter, its first dot removed, is "bin". */
  lemma DefaultFilter()
    ensures RemoveFirst(DEFAULT_ACCEPT, '.') == "bin"
  {
    RemoveFirstSplit("", "bin", '.');
    assert "" + ['.'] + "bin" == DEFAULT_ACCEPT;
  }

  /** The default limit is announced as 50 MB. */
  lemma DefaultSizeAlert()
    ensures SizeAlert(DEFAULT_MAX_SIZE) == "File size must be less than 50MB"
  {
    DivisionUnique(2 * DEFAULT_MAX_SIZE + MEGABYTE, 2 * MEGABYTE, 50);
    assert NatToString(50) == "50";
  }

  /** A name passes the default filter exactly when, lowered, it ends in "bin". */
  lemma DefaultAcceptIff(name: string)
    ensures MatchesAccept(name, DEFAULT_ACCEPT) <==> exists p: string :: Lower(name) == p + "bin"
  {
    DefaultFilter();
    EndsWithIff(Lower(name), "bin");
  }

  /**
    The name is lowered but the filter is not: a filter with a capital
    letter after its first dot refuses every file.
   */
  lemma CapitalFilterRefusesAll(file: File, accept: string, maxSize: nat, k: nat)
    requires k < |RemoveFirst(accept, '.')| && IsUpper(RemoveFirst(accept, '.')[k])
    ensures !CheckFile(file, accept, maxSize).Accepted?
  {
    var t, l := RemoveFirst(accept, '.'), Lower(file.name);
    assert !EndsWith(l, t) by {
      if EndsWith(l, t) {
        assert false;
      }
    }
  }

  // ---- the component ----

  /** The `FileUpload` component: its props, its state, and what it has shown and handed on. */
  class FileUpload {
    const accept: string
    const maxSize: nat
    const disabled: bool
    var isDragOver: bool
    var selectedFile: Option<File>
    /** The hidden file input's `value`. */
    var inputValue: string
    /** The files passed to `onFileSelect`, in order. */
    var selections: seq<File>
    /** The messages passed to `alert`, in order. */
    var alerts: seq<string>

    /** Only files that pass the checks are handed on, and the selected file is the last one handed on. */
    ghost predicate Valid()
      reads this
    {
      && (forall i :: 0 <= i < |selections| ==> CheckFile(selections[i], accept, maxSize).Accepted?)
      && (selectedFile.Some? ==> |selections| > 0 && selections[|selections| - 1] == selectedFile.value)
    }

    /** The props, with `undefined` as `None` taking the defaults. */
    constructor(accept: Option<string>, maxSize: Option<nat>, disabled: Option<bool>)
      ensures this.accept == accept.GetOr(DEFAULT_ACCEPT)
      ensures this.maxSize == maxSize.GetOr(DEFAULT_MAX_SIZE)
      ensures this.disabled == disabled.GetOr(false)
      ensures !isDragOver && selectedFile.None? && inputValue == ""
      ensures selections == [] && alerts == []
      ensures Valid()
    {
      this.accept := accept.GetOr(DEFAULT_ACCEPT);
      this.maxSize := maxSize.GetOr(DEFAULT_MAX_SIZE);
      this.disabled := disabled.GetOr(false);
      isDragOver := false;
      selectedFile := None;
      inputValue := "";
      selections := [];
      alerts := [];
    }

    /**
      The effect of `handleFileSelection(file)` relative to the earlier
      state: an accepted file becomes the selection and is handed on once;
      a refused one leaves both alone and shows its alert.
     */
    predicate Selected(file: File, selectedFile0: Option<File>, selections0: seq<File>, alerts0: seq<string>)
      reads this
    {
      var v := CheckFile(file, accept, maxSize);
      if v.Accepted? then selectedFile == Some(file) && selections == selections0 + [file] && alerts == alerts0
      else selectedFile == selectedFile0 && selections == selections0 && alerts == alerts0 + [v.alert]
    }

    method HandleFileSelection(file: File)
      requires Valid()
      modifies this`selectedFile, this`selections, this`alerts
      ensures Valid()
      ensures Selected(file, old(selectedFile), old(selections), old(alerts))
    {
      var v := CheckFile(file, accept, maxSize);
      if !v.Accepted? {
        alerts := alerts + [v.alert];
        return;
      }
      selectedFile := Some(file);
      selections := selections + [file];
    }

    /** `handleDrop`: the highlight goes; unless disabled, the first dropped file is checked. */
    method HandleDrop(files: seq<File>)
      requires Valid()
      modifies this`isDragOver, this`selectedFile, this`selections, this`alerts
      ensures Valid()
      ensures !isDragOver
      ensures disabled || files == [] ==>
        selectedFile == old(selectedFile) && selections == old(selections) && alerts == old(alerts)
      ensures !disabled && files != [] ==> Selected(files[0], old(selectedFile), old(selections), old(alerts))
    {
      isDragOver := false;
      if disabled {
        return;
      }
      if |files| > 0 {
        HandleFileSelection(files[0]);
      }
    }

    /**
      `handleFileChange`: the first file of a non-empty list is checked; a
      missing or empty list changes nothing. The handler itself does not
      look at `disabled`.
     */
    method HandleFileChange(files: Option<seq<File>>)
      requires Valid()
      modifies this`selectedFile, this`selections, this`alerts
      ensures Valid()
      ensures files.None? || files.value == [] ==>
        selectedFile == old(selectedFile) && selections == old(selections) && alerts == old(alerts)
      ensures files.Some? && files.value != [] ==> Selected(files.value[0], old(selectedFile), old(selections), old(alerts))
    {
      if files.Some? && |files.value| > 0 {
        HandleFileSelection(files.value[0]);
      }
    }

    /** `handleRemoveFile`: no file selected and the input cleared; nothing handed on is taken back. */
    method HandleRemoveFile()
      requires Valid()
      modifies this`selectedFile, this`inputValue
      ensures Valid()
      ensures selectedFile.None? && inputValue == ""
    {
      selectedFile := None;
      inputValue := "";
    }

    /** `handleDragOver`: the highlight comes on unless the picker is disabled. */
    method HandleDragOver()
      modifies this`isDragOver
      ensures isDragOver == (old(isDragOver) || !disabled)
    {
      if !disabled {
        isDragOver := true;
      }
    }

    /** `handleDragLeave`: the highlight goes. */
    method HandleDragLeave()
      modifies this`isDragOver
      ensures !isDragOver
    {
      isDragOver := false;
    }
  }
}
