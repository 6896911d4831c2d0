/** The generated plausibility files of vessel_workflow_service.py: payload builders and the spec loop. */
module FillerBuilder {
  import opened Text

  type Spec = (string, string)

  function Max(a: int, b: int): int {
    if a > b then a else b
  }

  function Min(a: int, b: int): int {
    if a < b then a else b
  }

  function Repeat(s: string, n: nat): (r: string)
    ensures |r| == |s| * n
  {
    if n == 0 then "" else Repeat(s, n - 1) + s
  }

  lemma {:induction false} RepeatedAll(s: string, n: nat)
    requires |s| == 1
    ensures forall i | 0 <= i < n :: Repeat(s, n)[i] == s[0]
  {
    if n > 0 {
      RepeatedAll(s, n - 1);
    }
  }

  const TEXT_LINE := "Checklist item reviewed and archived.\n"

  function TextHead(title: string): string {
    title + "\n" + "Status: nominal.\n" + "Reference: local working copy.\n" + "Prepared for offline review.\n"
  }

  /** A cut of a text file under this title. */
  ghost predicate IsText(payload: string, title: string) {
    exists n: nat :: payload <= TextHead(title) + Repeat(TEXT_LINE, n)
  }

  ghost predicate IsCsv(payload: string) {
    exists n: nat :: payload <= CsvRows(n)
  }

  /** A cut of the document under this title, or the whole of it and a comment line. */
  predicate IsPdf(payload: string, title: string) {
    || payload <= PdfContent(title)
    || (PdfContent(title) + "\n" <= payload && forall i | |PdfContent(title)| < i < |payload| :: payload[i] == '%')
  }

  /** Header, zeros and footer, cut when they do not fit. */
  predicate IsJpg(payload: string) {
    || payload <= JPG_HEADER + JPG_FOOTER
    || (JPG_HEADER <= payload && |payload| >= 22 && payload[|payload| - 2..] == JPG_FOOTER
        && forall i | 20 <= i < |payload| - 2 :: payload[i] as int == 0)
  }

  /** Exactly `approxSize` bytes of the head and as many checklist lines as it takes. */
  method TextPayload(title: string, approxSize: nat) returns (payload: string)
    ensures |payload| == approxSize
    ensures IsText(payload, title)
  {
    var content := TextHead(title);
    ghost var n: nat := 0;
    assert content == TextHead(title) + Repeat(TEXT_LINE, 0);
    while |content| < approxSize
      invariant content == TextHead(title) + Repeat(TEXT_LINE, n)
      decreases approxSize - |content|
    {
      assert |TEXT_LINE| == 38;
      content := content + TEXT_LINE;
      n := n + 1;
    }
    payload := content[..approxSize];
  }

  function Pad(n: nat, width: nat): (r: string)
    ensures |r| > 0
  {
    Repeat("0", if |Dec(n)| < width then width - |Dec(n)| else 0) + Dec(n)
  }

  function CsvRow(idx: nat): (r: string)
    ensures |r| > 0
  {
    Dec(idx) + ",item_" + Pad(idx, 3) + ",active," + Dec(idx * 7) + "\n"
  }

  function CsvRows(count: nat): string {
    if count == 0 then "id,name,status,value\n" else CsvRows(count - 1) + CsvRow(count)
  }

  /** Exactly `approxSize` bytes of the header and numbered rows. */
  method CsvPayload(approxSize: nat) returns (payload: string)
    ensures |payload| == approxSize
    ensures IsCsv(payload)
  {
    var rows, idx := "id,name,status,value\n", 1;
    hide CsvRow;
    assert rows == CsvRows(0);
    while |rows| < approxSize
      invariant idx >= 1 && rows == CsvRows(idx - 1)
      decreases approxSize - |rows|
    {
      rows := rows + CsvRow(idx);
      idx := idx + 1;
    }
    payload := rows[..approxSize];
    assert payload <= CsvRows(idx - 1);
  }

  function Bracketed(s: string): string {
    if s == "" then ""
    else [if s[0] == '(' then '[' else if s[0] == ')' then ']' else s[0]] + Bracketed(s[1..])
  }

  const PDF_BODY :=
    "%PDF-1.1\n1 0 obj<</Type/Catalog/Pages 2 0 R>>endobj\n2 0 obj<</Type/Pages/Count 1/Kids[3 0 R]>>endobj\n"
    + "3 0 obj<</Type/Page/Parent 2 0 R/MediaBox[0 0 300 144]/Contents 4 0 R/Resources<</Font<</F1 5 0 R>>>>>>endobj\n"
  const PDF_END := "5 0 obj<</Type/Font/Subtype/Type1/BaseFont/Helvetica>>endobj\nxref\n0 6\n0000000000 65535 f \n"
    + "trailer<</Root 1 0 R/Size 6>>\nstartxref\n0\n%%EOF\n"

  function PdfContent(title: string): string {
    var stream := "BT /F1 12 Tf 36 96 Td (" + Bracketed(title + " local review copy") + ") Tj ET";
    PDF_BODY + "4 0 obj<</Length " + Dec(|stream|) + ">>stream\n" + stream + "\nendstream endobj\n" + PDF_END
  }

  /** A prefix of the document, or the whole document and a comment line. */
  function PdfPayload(title: string, approxSize: nat): (payload: string)
    ensures |payload| == approxSize
    ensures IsPdf(payload, title)
  {
    hide PdfContent;
    var content := PdfContent(title);
    RepeatedAll("%", Max(0, approxSize - |content| - 1));
    if |content| >= approxSize then content[..approxSize]
    else content + "\n" + Repeat("%", approxSize - |content| - 1)
  }

  const JPG_HEADER: string :=
    [255 as char, 216 as char, 255 as char, 224 as char, 0 as char, 16 as char, 'J', 'F', 'I', 'F', 0 as char,
     1 as char, 1 as char, 0 as char, 0 as char, 1 as char, 0 as char, 1 as char, 0 as char, 0 as char]
  const JPG_FOOTER: string := [255 as char, 217 as char]

  function JpgPayload(approxSize: nat): (payload: string)
    ensures |payload| == approxSize
    ensures IsJpg(payload)
  {
    RepeatedAll([0 as char], Max(0, approxSize - |JPG_HEADER| - |JPG_FOOTER|));
    var middle := Repeat([0 as char], Max(0, approxSize - |JPG_HEADER| - |JPG_FOOTER|));
    (JPG_HEADER + middle + JPG_FOOTER)[..approxSize]
  }

  // ---- names ----

  const EXTENSIONS := ["txt", "md", "pdf", "csv", "jpg"]

  function Extension(idx: nat): string {
    EXTENSIONS[(idx + 3) % 5]
  }

  function GeneratedName(idx: nat): string {
    "generated_" + (Pad(idx, 2) + ("." + Extension(idx)))
  }

  lemma {:induction false} ZerosReadAsNothing(n: nat, rest: string)
    ensures TakeNat(Repeat("0", n) + rest, 0) == TakeNat(rest, 0)
  {
    if n == 0 {
      assert Repeat("0", n) + rest == rest;
    } else {
      var more := "0" + rest;
      assert Repeat("0", n) + rest == Repeat("0", n - 1) + more;
      ZerosReadAsNothing(n - 1, more);
      assert more[1..] == rest;
    }
  }

  lemma PaddedNumberReads(n: nat, width: nat, rest: string)
    requires rest == "" || !IsDigit(rest[0])
    ensures TakeNat(Pad(n, width) + rest, 0) == (n, rest)
  {
    var zeros: nat := if |Dec(n)| < width then width - |Dec(n)| else 0;
    assert Pad(n, width) + rest == Repeat("0", zeros) + (Dec(n) + rest);
    ZerosReadAsNothing(zeros, Dec(n) + rest);
    TakeNatReadsDec(n, rest);
  }

  lemma GeneratedNamesDiffer(a: nat, b: nat)
    requires GeneratedName(a) == GeneratedName(b)
    ensures a == b
  {
    hide Pad, Extension, TakeNat;
    var p := "generated_";
    assert GeneratedName(a)[|p|..] == Pad(a, 2) + ("." + Extension(a));
    assert GeneratedName(b)[|p|..] == Pad(b, 2) + ("." + Extension(b));
    PaddedNumberReads(a, 2, "." + Extension(a));
    PaddedNumberReads(b, 2, "." + Extension(b));
  }

  // ---- the spec list ----

  function TotalSize(specs: seq<Spec>): nat {
    if specs == [] then 0 else TotalSize(specs[..|specs| - 1]) + |specs[|specs| - 1].1|
  }

  lemma TotalAppend(specs: seq<Spec>, s: Spec)
    ensures TotalSize(specs + [s]) == TotalSize(specs) + |s.1|
  {
    assert (specs + [s])[..|specs|] == specs;
  }

  predicate DistinctNames(specs: seq<Spec>) {
    forall i, j | 0 <= i < j < |specs| :: specs[i].0 != specs[j].0
  }

  /** The sizes asked of the first five files. */
  function FixedSizes(target: nat): (sizes: seq<nat>)
    ensures |sizes| == 5
  {
    [Max(256, target / 10), Max(320, target / 12), Max(768, target / 8), Max(256, target / 12), Max(512, target / 10)]
  }

  const FIXED_NAMES := ["field_notes_01.txt", "briefing_01.md", "report_01.pdf", "logsheet_01.csv", "site_photo_01.jpg"]

  /** The five fixed files, then numbered ones. */
  predicate NamedInOrder(specs: seq<Spec>) {
    && |specs| >= 5
    && (forall i | 0 <= i < 5 :: specs[i].0 == FIXED_NAMES[i])
    && (forall i | 5 <= i < |specs| :: specs[i].0 == GeneratedName(i - 3))
  }

  lemma NamedInOrderIsDistinct(specs: seq<Spec>)
    requires NamedInOrder(specs)
    ensures DistinctNames(specs)
  {
    hide Pad;
    forall i, j | 0 <= i < j < |specs| ensures specs[i].0 != specs[j].0 {
      if i >= 5 {
        if GeneratedName(i - 3) == GeneratedName(j - 3) {
          GeneratedNamesDiffer(i - 3, j - 3);
        }
      } else if j >= 5 {
        assert GeneratedName(j - 3)[0] == 'g';
        assert FIXED_NAMES[i][0] != 'g';
      } else {
        assert FIXED_NAMES[i][0] != FIXED_NAMES[j][0] by { FixedInitials(); }
      }
    }
  }

  lemma FixedInitials()
    ensures FIXED_NAMES[0][0] == 'f' && FIXED_NAMES[1][0] == 'b' && FIXED_NAMES[2][0] == 'r'
         && FIXED_NAMES[3][0] == 'l' && FIXED_NAMES[4][0] == 's'
  {
  }

  /** The five fixed sizes never overshoot the bound. */
  lemma FixedSizesBound(target: nat)
    requires target > 0
    ensures var s := FixedSizes(target); s[0] + s[1] + s[2] + s[3] + s[4] <= Max(2112, target + 191)
  {
  }

  lemma NamedAppend(specs: seq<Spec>, payload: string)
    requires NamedInOrder(specs)
    ensures NamedInOrder(specs + [(GeneratedName(|specs| - 3), payload)])
  {
  }

  lemma FixedEndings()
    ensures EndsWith(FIXED_NAMES[0], ".txt") && EndsWith(FIXED_NAMES[1], ".md") && EndsWith(FIXED_NAMES[2], ".pdf")
         && EndsWith(FIXED_NAMES[3], ".csv") && EndsWith(FIXED_NAMES[4], ".jpg")
  {
  }

  /** The size of a numbered file: a share that shrinks with its number, no more than is missing, 192 at least. */
  predicate SizedFrom(specs: seq<Spec>, target: int, i: nat)
    requires 5 <= i < |specs|
  {
    var share, missing := target / (5 + i), target - TotalSize(specs[..i]);
    |specs[i].1| == if share < 192 || missing < 192 then 192 else if share < missing then share else missing
  }

  method InitialSpecs(target: nat) returns (specs: seq<Spec>)
    requires target > 0
    ensures |specs| == 5 && NamedInOrder(specs)
    ensures forall i | 0 <= i < 5 :: |specs[i].1| == FixedSizes(target)[i]
    ensures 0 < TotalSize(specs) <= Max(2112, target + 191)
    ensures forall i | 0 <= i < 5 :: HoldsAt(i, specs[i])
  {
    hide TextHead, PdfContent, IsText, IsPdf, IsCsv, IsJpg, EndsWith;
    FixedEndings();
    var sizes := FixedSizes(target);
    var notes := TextPayload("Field Notes", sizes[0]);
    var briefing := TextPayload("# Briefing", sizes[1]);
    var report := PdfPayload("Operational Report", sizes[2]);
    var logsheet := CsvPayload(sizes[3]);
    var photo := JpgPayload(sizes[4]);
    specs := [(FIXED_NAMES[0], notes), (FIXED_NAMES[1], briefing), (FIXED_NAMES[2], report),
              (FIXED_NAMES[3], logsheet), (FIXED_NAMES[4], photo)];
    FiveTotal(specs);
    FixedSizesBound(target);
  }

  predicate EndsWith(name: string, ending: string) {
    |ending| <= |name| && name[|name| - |ending|..] == ending
  }

  lemma EndsLast(start: string, ending: string)
    ensures EndsWith(start + ending, ending)
  {
  }

  /** A file holds what its name's ending says, under the title of its number; one of the five endings is there. */
  ghost predicate Holds(name: string, payload: string, text: string, summary: string, report: string) {
    || (EndsWith(name, ".txt") && IsText(payload, text))
    || (EndsWith(name, ".md") && IsText(payload, summary))
    || (EndsWith(name, ".pdf") && IsPdf(payload, report))
    || (EndsWith(name, ".csv") && IsCsv(payload))
    || (EndsWith(name, ".jpg") && IsJpg(payload))
  }

  /** The fixed files carry their own titles, the numbered ones their number. */
  ghost predicate HoldsAt(i: nat, s: Spec) {
    if i < 5 then Holds(s.0, s.1, "Field Notes", "# Briefing", "Operational Report")
    else Holds(s.0, s.1, "Notes " + Dec(i - 3), "# Summary " + Dec(i - 3), "Report " + Dec(i - 3))
  }

  /** The kinds take turns, starting with text at number 2. */
  lemma GeneratedEnding(idx: nat)
    ensures EndsWith(GeneratedName(idx), if idx % 5 == 2 then ".txt" else if idx % 5 == 3 then ".md"
                                         else if idx % 5 == 4 then ".pdf" else if idx % 5 == 0 then ".csv" else ".jpg")
  {
    hide Pad;
    assert (idx + 3) % 5 == if idx % 5 < 2 then idx % 5 + 3 else idx % 5 - 2;
    var start := "generated_" + Pad(idx, 2);
    assert GeneratedName(idx) == start + ("." + Extension(idx));
    EndsLast(start, "." + Extension(idx));
  }

  method ExtraPayload(idx: nat, approxSize: nat) returns (payload: string)
    ensures |payload| == approxSize
    ensures Holds(GeneratedName(idx), payload, "Notes " + Dec(idx), "# Summary " + Dec(idx), "Report " + Dec(idx))
  {
    hide TextHead, PdfContent, IsText, IsPdf, IsCsv, IsJpg, GeneratedName, EndsWith;
    GeneratedEnding(idx);
    var ext := Extension(idx);
    if ext == "txt" {
      payload := TextPayload("Notes " + Dec(idx), approxSize);
    } else if ext == "md" {
      payload := TextPayload("# Summary " + Dec(idx), approxSize);
    } else if ext == "pdf" {
      payload := PdfPayload("Report " + Dec(idx), approxSize);
    } else if ext == "csv" {
      payload := CsvPayload(approxSize);
    } else {
      payload := JpgPayload(approxSize);
    }
  }

  /**
   The files for a target: numbered names that never repeat, and a total that
   reaches the target and passes it by less than one smallest file.
   */
  method BuildGeneratedFileSpecs(target: int) returns (specs: seq<Spec>)
    ensures target <= 0 ==> specs == []
    ensures target > 0 ==> NamedInOrder(specs) && DistinctNames(specs)
    ensures target > 0 ==> target <= TotalSize(specs) <= Max(2112, target + 191)
    ensures target > 0 ==> forall i | 0 <= i < |specs| ::
            if i < 5 then |specs[i].1| == FixedSizes(target)[i] else SizedFrom(specs, target, i)
    ensures forall i | 0 <= i < |specs| :: HoldsAt(i, specs[i])
  {
    hide NamedInOrder, GeneratedName, TotalSize, FixedSizes, Holds;
    if target <= 0 {
      return [];
    }
    specs := InitialSpecs(target);
    var total, idx := TotalSize(specs), 2;
    while total < target
      invariant idx == |specs| - 3 && idx >= 2 && NamedInOrder(specs)
      invariant 0 < total == TotalSize(specs) <= Max(2112, target + 191)
      invariant forall i | 0 <= i < |specs| ::
                if i < 5 then |specs[i].1| == FixedSizes(target)[i] else SizedFrom(specs, target, i)
      invariant forall i | 0 <= i < |specs| :: HoldsAt(i, specs[i])
      decreases target - total
    {
      ghost var before := specs;
      var remaining := target - total;
      var approxSize := Min(Max(192, target / (8 + idx)), Max(192, remaining));
      var payload := ExtraPayload(idx, approxSize);
      TotalAppend(specs, (GeneratedName(idx), payload));
      NamedAppend(specs, payload);
      specs := specs + [(GeneratedName(idx), payload)];
      assert forall i | 5 <= i < |specs| :: specs[..i] == before[..i];
      assert before[..|before|] == before;
      total := total + |payload|;
      idx := idx + 1;
    }
    NamedInOrderIsDistinct(specs);
  }

  lemma FiveTotal(specs: seq<Spec>)
    requires |specs| == 5
    ensures TotalSize(specs) == |specs[0].1| + |specs[1].1| + |specs[2].1| + |specs[3].1| + |specs[4].1|
  {
    TotalAppend([], specs[0]);
    TotalAppend(specs[..1], specs[1]);
    TotalAppend(specs[..2], specs[2]);
    TotalAppend(specs[..3], specs[3]);
    TotalAppend(specs[..4], specs[4]);
    assert specs[..1] == [] + [specs[0]] && specs[..2] == specs[..1] + [specs[1]]
        && specs[..3] == specs[..2] + [specs[2]];
    assert specs[..4] == specs[..3] + [specs[3]] && specs == specs[..4] + [specs[4]];
  }
}
