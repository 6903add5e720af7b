/** The guest list page of src/app/pages/admin/GuestList.tsx without its
    rendering: the CSV export (`exportToCSV`), the attendance labels and the
    per-status counters shown above the table. */
module GuestListPage {

  import opened Basics
  import opened Seqs
  import opened Strings
  import opened Schema
  import AdminApi

  // ---- labels and counters ----

  /** `getAttendanceLabel(attendance)`. */
  function AttendanceLabel(attendance: string): (shown: string)
    ensures attendance == AdminApi.Attending ==> shown == "Hadir"
    ensures attendance == AdminApi.NotAttending ==> shown == "Tidak Hadir"
    ensures attendance == AdminApi.Uncertain ==> shown == "Belum Pasti"
    ensures attendance !in {AdminApi.Attending, AdminApi.NotAttending, AdminApi.Uncertain} ==> shown == attendance
  {
    if attendance == AdminApi.Attending then "Hadir"
    else if attendance == AdminApi.NotAttending then "Tidak Hadir"
    else if attendance == AdminApi.Uncertain then "Belum Pasti"
    else attendance
  }

  /** The three badges: `guests.filter(g => g.attendance === code).length`. */
  datatype StatusCounts = StatusCounts(attending: nat, notAttending: nat, uncertain: nat)

  function CountStatuses(guests: seq<Guest>): (r: StatusCounts)
    ensures r.attending + r.notAttending + r.uncertain <= |guests|
  {
    AdminApi.StatusCountsAtMostTotal(guests);
    StatusCounts(Count(guests, AdminApi.AttendanceIs(AdminApi.Attending)),
                 Count(guests, AdminApi.AttendanceIs(AdminApi.NotAttending)),
                 Count(guests, AdminApi.AttendanceIs(AdminApi.Uncertain)))
  }

  /** The badges agree with the dashboard's counters over the same guests, and add
      up to the number of guests shown when every code is one of the three. */
  lemma CountsMatchDashboard(s: DbState, wishCountFault: bool)
    ensures var c := CountStatuses(s.guests);
      var d := AdminApi.GetDashboardStats(s, false, wishCountFault);
      && c.attending == d.attending && c.notAttending == d.notAttending && c.uncertain == d.uncertain
      && ((forall g :: g in s.guests ==> g.attendance in {AdminApi.Attending, AdminApi.NotAttending, AdminApi.Uncertain})
          ==> c.attending + c.notAttending + c.uncertain == |s.guests|)
  {
    AdminApi.StatusCountsAtMostTotal(s.guests);
  }

  // ---- quoting (RFC 4180, section 2, rule 7) ----

  /** `s.replace(/"/g, '""')`: every double quote doubled. */
  function EscapeQuotes(s: string): (r: string)
    ensures '"' !in s ==> r == s
    ensures |r| >= |s|
    decreases |s|
  {
    if s == [] then ""
    else (if s[0] == '"' then "\"\"" else [s[0]]) + EscapeQuotes(s[1..])
  }

  /** What a CSV reader does inside a quoted field: a doubled quote reads as one. */
  function UnescapeQuotes(t: string): string
    decreases |t|
  {
    if t == [] then ""
    else if |t| >= 2 && t[0] == '"' && t[1] == '"' then "\"" + UnescapeQuotes(t[2..])
    else [t[0]] + UnescapeQuotes(t[1..])
  }

  /** Escaping loses nothing: a reader recovers the original message. */
  lemma {:induction false} UnescapeEscape(s: string)
    ensures UnescapeQuotes(EscapeQuotes(s)) == s
    decreases |s|
  {
    if s != [] {
      UnescapeEscape(s[1..]);
      var e := EscapeQuotes(s);
      if s[0] == '"' {
        assert e == "\"\"" + EscapeQuotes(s[1..]);
        assert e[2..] == EscapeQuotes(s[1..]);
      } else {
        assert e == [s[0]] + EscapeQuotes(s[1..]);
        assert e[1..] == EscapeQuotes(s[1..]);
        assert e[0] != '"';
      }
      assert s == [s[0]] + s[1..];
    }
  }

  /** `"${s}"`. */
  function Quote(s: string): string {
    "\"" + s + "\""
  }

  // ---- exportToCSV ----

  const Headers: seq<string> := ["Nama", "Email", "Telepon", "Status Kehadiran", "Jumlah Tamu", "Pesan", "Tanggal RSVP"]

  /** The byte-order mark written before the content. */
  const Bom: string := "\U{FEFF}"

  /** One guest's fields in header order; `formatDate` is `toLocaleString("id-ID")`
      on the RSVP time. */
  function GuestFields(g: Guest, formatDate: int -> string): (fields: seq<string>)
    ensures |fields| == |Headers|
  {
    [Quote(g.name),
     Quote(StrOr(g.email, "")),
     Quote(StrOr(g.phone, "")),
     g.attendance,
     if g.attendance == AdminApi.Attending then StrOr(g.guestCount, "0") else "",
     Quote(EscapeQuotes(StrOr(g.message, ""))),
     formatDate(g.createdAt)]
  }

  function RowLine(formatDate: int -> string): Guest -> string {
    (g: Guest) => Join(GuestFields(g, formatDate), ",")
  }

  /** The header line, then one line per guest, joined by line feeds. */
  function CsvLines(guests: seq<Guest>, formatDate: int -> string): (lines: seq<string>)
    ensures |lines| == |guests| + 1 && lines[0] == Join(Headers, ",")
    ensures forall i :: 0 <= i < |guests| ==> lines[i + 1] == Join(GuestFields(guests[i], formatDate), ",")
  {
    var rows := Map(guests, RowLine(formatDate));
    assert forall i :: 0 <= i < |guests| ==> ([Join(Headers, ",")] + rows)[i + 1] == rows[i];
    [Join(Headers, ",")] + rows
  }

  /** The file written by `exportToCSV`. */
  function CsvFile(guests: seq<Guest>, formatDate: int -> string): string {
    Bom + Join(CsvLines(guests, formatDate), "\n")
  }

  /** The contents of each column. The count column is filled only for guests who
      attend, with "0" for a missing count; name, email and phone are quoted as they
      are, and the message quoted with its quotes doubled, so a reader recovers it. */
  lemma GuestColumns(g: Guest, formatDate: int -> string)
    ensures var f := GuestFields(g, formatDate);
      && f[0] == Quote(g.name) && f[1] == Quote(StrOr(g.email, "")) && f[2] == Quote(StrOr(g.phone, ""))
      && f[3] == g.attendance
      && (g.attendance == AdminApi.Attending && Truthy(g.guestCount) ==> f[4] == g.guestCount.value)
      && (g.attendance == AdminApi.Attending && !Truthy(g.guestCount) ==> f[4] == "0")
      && (g.attendance != AdminApi.Attending ==> f[4] == "")
      && |f[5]| >= 2 && f[5][0] == '"' && f[5][|f[5]| - 1] == '"'
      && UnescapeQuotes(f[5][1..|f[5]| - 1]) == StrOr(g.message, "")
      && f[6] == formatDate(g.createdAt)
  {
    var m := EscapeQuotes(StrOr(g.message, ""));
    assert Quote(m)[1..|Quote(m)| - 1] == m;
    UnescapeEscape(StrOr(g.message, ""));
  }

  /** When no field holds a line feed, the content splits back into the header
      line and one line per guest, in order: the file has one record per guest. */
  lemma CsvSplitsIntoRecords(guests: seq<Guest>, formatDate: int -> string)
    requires forall i :: 0 <= i < |guests| ==> '\n' !in Join(GuestFields(guests[i], formatDate), ",")
    ensures Split(Join(CsvLines(guests, formatDate), "\n"), '\n') == CsvLines(guests, formatDate)
    ensures CsvFile(guests, formatDate)[..1] == Bom
  {
    var lines := CsvLines(guests, formatDate);
    assert forall i :: 0 <= i < |Headers| ==> '\n' !in Headers[i];
    JoinAvoids(Headers, ",", '\n');
    forall i | 0 <= i < |lines| ensures '\n' !in lines[i] {
      if i > 0 { assert lines[i] == Join(GuestFields(guests[i - 1], formatDate), ","); }
    }
    SplitJoin(lines, '\n');
  }
}
