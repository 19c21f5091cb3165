/** `sendData`: the form posted to the endpoint and what reaches the console.
    The network call is an input, `Transport`: either the response came back with
    a status code or `requests.post` raised. The log prefix (timestamp and the
    three formatted readings) is an opaque string. */
module Upload {
  import opened Numerals

  /** A form value: the key is text, the readings are Python floats. */
  datatype FormValue = Text(text: string) | Number(number: real)

  datatype Request = Post(url: string, form: map<string, FormValue>)

  /** What `requests.post` did. */
  datatype Transport = Responded(status: int) | Raised(message: string)

  /** The request sent and the lines printed; `sendData` itself returns nothing. */
  datatype SendReport = SendReport(request: Request, console: seq<string>)

  const PayloadKeys: set<string> := {"api_key", "field1", "field2", "field3"}

  /** Line built after a response and then dropped without being printed. */
  function UpdateLine(prefix: string, status: int): string {
    prefix + "Update " + ShowInt(status, Decimal)
  }

  /** Line printed when the post raised. */
  function ErrorLine(prefix: string, message: string): string {
    prefix + "Error:" + message
  }

  /** One call of `sendData`. Its `field1`..`field3` name parameters are not used.
      Both transport outcomes yield a report: no transport exception (an `Exception`)
      leaves the function. */
  function SendData(url: string, key: string, field1: string, field2: string, field3: string,
                    temp: real, pres: real, humid: real,
                    prefix: string, transport: Transport): (r: SendReport)
    ensures r.request.url == url
    ensures r.request.form.Keys == PayloadKeys
    ensures r.request.form["api_key"] == Text(key)
    ensures r.request.form["field1"] == Number(temp)
    ensures r.request.form["field2"] == Number(pres)
    ensures r.request.form["field3"] == Number(humid)
    ensures r.console == [] <==> transport.Responded?
    ensures transport.Raised? ==> r.console == [ErrorLine(prefix, transport.message)]
  {
    var values := map["api_key" := Text(key), "field1" := Number(temp),
                      "field2" := Number(pres), "field3" := Number(humid)];
    match transport
    case Responded(status) =>
      var _ := UpdateLine(prefix, status);
      SendReport(Post(url, values), [])
    case Raised(message) =>
      SendReport(Post(url, values), [ErrorLine(prefix, message)])
  }

  /** The names passed for the three fields make no difference. */
  lemma FieldNamesIgnored(url: string, key: string, a1: string, a2: string, a3: string,
                          b1: string, b2: string, b3: string,
                          temp: real, pres: real, humid: real, prefix: string, transport: Transport)
    ensures SendData(url, key, a1, a2, a3, temp, pres, humid, prefix, transport)
         == SendData(url, key, b1, b2, b3, temp, pres, humid, prefix, transport)
  {
  }

  /** The `Update <status>` line is never printed, whatever the transport did. */
  lemma UpdateLineNeverPrinted(url: string, key: string, f1: string, f2: string, f3: string,
                                 temp: real, pres: real, humid: real,
                                 prefix: string, transport: Transport, status: int)
    ensures UpdateLine(prefix, status) !in SendData(url, key, f1, f2, f3, temp, pres, humid, prefix, transport).console
  {
    if transport.Raised? {
      assert UpdateLine(prefix, status)[|prefix|] == 'U';
      assert ErrorLine(prefix, transport.message)[|prefix|] == 'E';
    }
  }
}
