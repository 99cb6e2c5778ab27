/** The upload filter applied to the permission document attached to a booking request. */
module Uploads {
  import opened Basics

  const AllowedExtensions: set<string> := {"pdf", "png", "jpg", "jpeg", "doc", "docx"}

  /** `str.lower()` on the ASCII letters. */
  function LowerAscii(s: string): (r: string)
    ensures |r| == |s|
    ensures forall i :: 0 <= i < |s| ==> r[i] == if 'A' <= s[i] <= 'Z' then (s[i] as int + 32) as char else s[i]
  {
    if |s| == 0 then ""
    else [if 'A' <= s[0] <= 'Z' then (s[0] as int + 32) as char else s[0]] + LowerAscii(s[1..])
  }

  /** Index of the last '.' in `s`, if any. */
  function LastDot(s: string): (r: Option<nat>)
    ensures r.Some? ==> r.value < |s| && s[r.value] == '.' && '.' !in s[r.value + 1..]
    ensures r.None? ==> '.' !in s
  {
    if |s| == 0 then None
    else if s[|s| - 1] == '.' then Some(|s| - 1)
    else match LastDot(s[..|s| - 1])
      case None => None
      case Some(k) => assert s[k + 1..] == s[..|s| - 1][k + 1..] + [s[|s| - 1]]; Some(k)
  }

  /** `allowed_file`: the name has a '.', and the text after the last one, lower-cased, is allowed. */
  predicate AllowedFile(filename: string)
  {
    match LastDot(filename)
    case None => false
    case Some(k) => LowerAscii(filename[k + 1..]) in AllowedExtensions
  }

  /** A name without a dot is never accepted. */
  lemma NoDotNotAllowed(filename: string)
    requires '.' !in filename
    ensures !AllowedFile(filename)
  {
  }

  /** Only the last extension decides: "name.ext" is accepted iff ext, lower-cased, is allowed. */
  lemma AllowedFileByLastExtension(name: string, ext: string)
    requires '.' !in ext
    ensures AllowedFile(name + "." + ext) <==> LowerAscii(ext) in AllowedExtensions
  {
    var s := name + "." + ext;
    assert s[|name|] == '.';
    var k := LastDot(s).value;
    assert s[k + 1..] == ext;
  }

  /** The check ignores the case of the extension. */
  lemma UpperCaseExtensionAllowed()
    ensures AllowedFile("Report.PDF")
  {
    assert "Report.PDF" == "Report" + "." + "PDF";
    AllowedFileByLastExtension("Report", "PDF");
    assert LowerAscii("PDF") == "pdf";
  }

  /** A double extension is judged by its last part only: "x.pdf.exe" is refused. */
  lemma DoubleExtensionJudgedByLast(name: string)
    ensures !AllowedFile(name + ".pdf.exe")
  {
    assert name + ".pdf.exe" == (name + ".pdf") + "." + "exe";
    assert '.' !in "exe";
    AllowedFileByLastExtension(name + ".pdf", "exe");
    assert LowerAscii("exe") == "exe";
    assert "exe" !in AllowedExtensions;
  }
}
