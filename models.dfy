/** The two persisted records, as columns: a user account and a report
    ("laporan"). Only the shape is modelled; the database is not. */
module Models {
  import opened Optional

  /** A wall-clock timestamp as stored in the `tanggal` column. */
  datatype DateTime = DateTime(year: int, month: int, day: int, hour: int, minute: int, second: int)

  /** The role every new account gets unless it is changed outside the
      application. */
  const DefaultRole: string := "user"

  datatype User = User(id: int, username: string, password: string, role: string)

  /** A report: title (`judul`), body (`isi`), creation time, optional photo
      URL and optional coordinates, and its owner. */
  datatype Laporan = Laporan(
    id: int,
    judul: string,
    isi: string,
    tanggal: DateTime,
    foto: Option<string>,
    latitude: Option<string>,
    longitude: Option<string>,
    userId: int)
}
