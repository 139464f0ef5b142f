/** The CSR proposal record the dashboard and the report page load from
    `/api/proposals`, after the server's JSON has been read into values. */
module Proposals {
  import opened Dates
  import opened Records

  /** `total_harga` as it arrives: missing or empty (falsy), a number of
      rupiah, or text that `parseFloat` cannot read. */
  datatype Amount = Blank | Number(value: int) | NotANumber(text: string)

  datatype Proposal = Proposal(
    id: int,                      // id_proposal
    caseId: Option<string>,       // case_id
    name: Option<string>,         // nama_proposal
    origin: Option<string>,       // asal_proposal
    status: string,               // status_pengambilan
    picName: Option<string>,      // PIC?.nama_pic
    entryDate: Date,              // tanggal_masuk
    donationForm: Option<string>, // bentuk_donasi
    productCount: Option<int>,    // jumlah_produk
    detail: Option<string>,       // detail_produk
    totalPrice: Amount)           // total_harga

  /** `parseFloat(total_harga || 0)`: a falsy amount reads as 0, unreadable
      text yields NaN (`None`). */
  function ParsedOrNaN(a: Amount): (r: Option<int>)
    ensures r.None? <==> a.NotANumber?
    ensures a.Number? ==> r == Some(a.value)
  {
    match a
    case Blank => Some(0)
    case Number(v) => Some(v)
    case NotANumber(_) => None
  }

  /** `parseFloat(total_harga) || 0`: NaN, and so a missing amount, counts as 0. */
  function AmountOrZero(a: Amount): (r: int)
    ensures a.Number? ==> r == a.value
    ensures !a.Number? ==> r == 0
  {
    if a.Number? then a.value else 0
  }

  /** A proposal's amount for the report's sums. */
  function Price(p: Proposal): int {
    AmountOrZero(p.totalPrice)
  }
}
