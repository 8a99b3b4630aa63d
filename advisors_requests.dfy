/** The page request builder (get_page): a POST to the secretaries-by-office
    query with the congressperson number and a zero-based row offset. */
module AdvisorsRequests {
  import opened AdvisorsDirectory

  const CamaraUrl: string :=
    "http://www2.camara.leg.br/transparencia/recursos-humanos/"
    + "servidores/lotacao/consulta-secretarios-parlamentares/"
    + "layouts_transpar_quadroremuner_consultaSecretariosParlamentares"

  /** Rows per result page on the site. */
  const PageSize: int := 20

  /** Page used when the caller gives none. */
  const DefaultPage: int := 1

  /** The POST request as a descriptor: target URL and the two form fields
      `lotacao` and `b_start:int`. */
  datatype PageRequest = PageRequest(url: string, lotacao: string, bStart: int)

  /** get_page(congressperson, page): the form carries the congressperson
      number and the offset of the page's first row. */
  function GetPage(c: Congressperson, page: int): (r: PageRequest)
    ensures r.url == CamaraUrl && r.lotacao == c.number
    ensures r.bStart % PageSize == 0
    ensures page >= 1 <==> r.bStart >= 0
    ensures page == 1 ==> r.bStart == 0
    ensures page == 2 ==> r.bStart == 20
  {
    PageRequest(CamaraUrl, c.number, (page - 1) * PageSize)
  }

  /** get_page(congressperson) with the default page argument. */
  function GetFirstPage(c: Congressperson): (r: PageRequest)
    ensures r.bStart == 0 && r.lotacao == c.number
  {
    GetPage(c, DefaultPage)
  }

  /** The page a request asks for, read back from its offset. */
  function PageOf(r: PageRequest): int
  {
    r.bStart / PageSize + 1
  }

  /** The offset encodes the page without loss. */
  lemma PageOfGetPage(c: Congressperson, page: int)
    ensures PageOf(GetPage(c, page)) == page
  {
    var r := GetPage(c, page);
    assert r.bStart == (page - 1) * 20;
    assert r.bStart / 20 == page - 1;
  }

  /** Two requests are equal exactly when the congressperson numbers and the
      pages are equal: the request depends on nothing else (the name is not sent). */
  lemma GetPageInjective(c1: Congressperson, p1: int, c2: Congressperson, p2: int)
    ensures GetPage(c1, p1) == GetPage(c2, p2) <==> c1.number == c2.number && p1 == p2
  {
    if GetPage(c1, p1) == GetPage(c2, p2) {
      PageOfGetPage(c1, p1);
      PageOfGetPage(c2, p2);
    }
  }

  /** A larger page number gives a larger offset. */
  lemma GetPageMonotonic(c: Congressperson, p: int, q: int)
    requires p < q
    ensures GetPage(c, p).bStart < GetPage(c, q).bStart
  {
  }

  /** The first wave of run(): page 1 for every congressperson, in directory order. */
  function FirstWave(cs: seq<Congressperson>): (reqs: seq<PageRequest>)
    ensures |reqs| == |cs|
    ensures forall i :: 0 <= i < |cs| ==>
              reqs[i].url == CamaraUrl && reqs[i].lotacao == cs[i].number && reqs[i].bStart == 0
  {
    seq(|cs|, i requires 0 <= i < |cs| => GetFirstPage(cs[i]))
  }
}
