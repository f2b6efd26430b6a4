/** The name handling of storeFile: suffix renaming and the `..` check. */
module FileNames {
  import opened Types

  const SourceXml: string := "source.xml"
  const SourcePdf: string := "source.pdf"
  const OutXml: string := "out.xml"
  const XmlSuffix: string := ".xml"
  const PdfSuffix: string := ".pdf"
  const ParentSequence: string := ".."

  /** Java's String.endsWith: a case-sensitive comparison of the last characters. */
  predicate EndsWith(s: string, suffix: string)
  {
    |suffix| <= |s| && s[|s| - |suffix|..] == suffix
  }

  /** `sub` occurs in `s` starting at index `i`. */
  predicate OccursAt(s: string, sub: string, i: int)
  {
    0 <= i <= |s| - |sub| && s[i..i + |sub|] == sub
  }

  /** Java's String.contains: `sub` occurs somewhere in `s`. */
  predicate Contains(s: string, sub: string)
  {
    exists i | 0 <= i <= |s| - |sub| :: OccursAt(s, sub, i)
  }

  /** The name a cleaned upload name is stored under: a `.xml` name becomes
      `source.xml`, a `.pdf` name `source.pdf`, any other name stays as it is. */
  function CanonicalName(cleaned: string): (name: string)
    ensures name in {SourceXml, SourcePdf} || name == cleaned
  {
    if EndsWith(cleaned, XmlSuffix) then SourceXml
    else if EndsWith(cleaned, PdfSuffix) then SourcePdf
    else cleaned
  }

  /** The name storeFile writes under, or the exception it throws for a
      name that still holds `..` after renaming. */
  function CheckName(cleaned: string): (r: Result<string, Failure>)
    ensures r.Ok? ==> r.value == CanonicalName(cleaned) && !Contains(r.value, ParentSequence)
    ensures r.Err? ==> r.error == InvalidPathSequence(cleaned) && Contains(cleaned, ParentSequence)
    ensures r.Err? <==> Contains(CanonicalName(cleaned), ParentSequence)
  {
    var name := CanonicalName(cleaned);
    if Contains(name, ParentSequence) then
      CanonicalNamesAreSafe();
      Err(InvalidPathSequence(name))
    else
      Ok(name)
  }

  /** A string with no two adjacent dots does not contain `..`. */
  lemma NoAdjacentDots(s: string)
    requires forall j :: 0 <= j < |s| - 1 ==> s[j] != '.' || s[j + 1] != '.'
    ensures !Contains(s, ParentSequence)
  {
    forall i | 0 <= i <= |s| - 2
      ensures !OccursAt(s, ParentSequence, i)
    {
      assert s[i..i + 2][0] == s[i] && s[i..i + 2][1] == s[i + 1];
    }
  }

  /** None of the fixed names contains `..`. */
  lemma CanonicalNamesAreSafe()
    ensures !Contains(SourceXml, ParentSequence)
    ensures !Contains(SourcePdf, ParentSequence)
    ensures !Contains(OutXml, ParentSequence)
  {
    NoAdjacentDots(SourceXml);
    NoAdjacentDots(SourcePdf);
    NoAdjacentDots(OutXml);
  }

  /** Any name ending in `.xml` is stored as `source.xml`, whatever its base. */
  lemma XmlNameRenamed(base: string)
    ensures CanonicalName(base + XmlSuffix) == SourceXml
  {
  }

  /** Any name ending in `.pdf` is stored as `source.pdf`, whatever its base. */
  lemma PdfNameRenamed(base: string)
    ensures CanonicalName(base + PdfSuffix) == SourcePdf
  {
  }

  /** The suffix test is case-sensitive: an upper-case extension is not renamed. */
  lemma SuffixTestIsCaseSensitive()
    ensures CanonicalName("A.XML") == "A.XML"
    ensures CheckName("A.XML") == Ok("A.XML")
  {
    assert "A.XML"[4] == 'L';
    NoAdjacentDots("A.XML");
  }

  /** Every name ending in upper-case `.XML` or `.PDF` is kept as it is,
      and is accepted when it holds no `..`. */
  lemma UpperCaseSuffixKept(s: string)
    requires EndsWith(s, ".XML") || EndsWith(s, ".PDF")
    ensures CanonicalName(s) == s
    ensures !Contains(s, ParentSequence) ==> CheckName(s) == Ok(s)
  {
    assert s[|s| - 1] == 'L' || s[|s| - 1] == 'F';
  }

  /** A renamed name is never rejected by the `..` check, even when the
      uploaded name held `..`. */
  lemma RenamedNameAccepted(cleaned: string)
    requires EndsWith(cleaned, XmlSuffix) || EndsWith(cleaned, PdfSuffix)
    ensures CheckName(cleaned) == Ok(if EndsWith(cleaned, XmlSuffix) then SourceXml else SourcePdf)
  {
    CanonicalNamesAreSafe();
  }

  /** The cleaned name `../../evil.xml` passes the `..` check as `source.xml`. */
  lemma TraversalHiddenByRename()
    ensures CheckName("../../evil.xml") == Ok(SourceXml)
  {
  }

  /** The check does not refuse absolute names: `/etc/cron.d/job` passes unchanged. */
  lemma AbsoluteNameAccepted()
    ensures CheckName("/etc/cron.d/job") == Ok("/etc/cron.d/job")
  {
    NoAdjacentDots("/etc/cron.d/job");
  }

  /** A name with neither suffix that contains `..` is rejected, naming it. */
  lemma UnsupportedTraversalRejected(cleaned: string)
    requires !EndsWith(cleaned, XmlSuffix) && !EndsWith(cleaned, PdfSuffix)
    requires Contains(cleaned, ParentSequence)
    ensures CheckName(cleaned) == Err(InvalidPathSequence(cleaned))
  {
  }

  /** A name with neither suffix and no `..` is accepted unchanged: there is
      no unsupported-type rejection. */
  lemma UnsupportedNameKept(cleaned: string)
    requires !EndsWith(cleaned, XmlSuffix) && !EndsWith(cleaned, PdfSuffix)
    requires !Contains(cleaned, ParentSequence)
    ensures CheckName(cleaned) == Ok(cleaned)
  {
  }

  /** Renaming is idempotent: a stored name is its own canonical name. */
  lemma CanonicalNameIdempotent(cleaned: string)
    ensures CanonicalName(CanonicalName(cleaned)) == CanonicalName(cleaned)
  {
  }
}
