/** The table of well-known ports and the service-name lookup of the analytics package. */
module ServiceMap {
  import opened GoStrings
  import opened Strconv
  import opened Wrappers

  /** The fourteen ports that have a name, as a lookup that fails for every other port. */
  function CommonPort(port: int): (r: Option<GoString>)
    ensures r.Some? ==> r.value != [] && 'A' <= r.value[0] <= 'Z'
  {
    match port
    case 20 => Some("FTP-DATA")
    case 21 => Some("FTP")
    case 22 => Some("SSH")
    case 23 => Some("Telnet")
    case 25 => Some("SMTP")
    case 53 => Some("DNS")
    case 80 => Some("HTTP")
    case 110 => Some("POP3")
    case 143 => Some("IMAP")
    case 443 => Some("HTTPS")
    case 3306 => Some("MySQL")
    case 5432 => Some("PostgreSQL")
    case 6379 => Some("Redis")
    case 8080 => Some("HTTP-Alt")
    case _ => None
  }

  /** The listed ports. */
  const ListedPorts: set<int> := {20, 21, 22, 23, 25, 53, 80, 110, 143, 443, 3306, 5432, 6379, 8080}

  lemma ListedPortsExactly(port: int)
    ensures CommonPort(port).Some? <==> port in ListedPorts
  {
  }

  /** True of a byte that can begin a decimal rendering: a digit or a minus sign. */
  predicate NumeralStart(c: Byte) {
    IsDigit(c) || c == '-'
  }

  /** The name of a listed port, or the port in decimal. The result is never empty, and it starts
      like a number exactly when the port is not listed. */
  function GetServiceName(port: int): (name: GoString)
    ensures name != []
    ensures CommonPort(port).None? <==> NumeralStart(name[0])
  {
    ItoaShape(port);
    match CommonPort(port)
    case Some(name) => name
    case None => Itoa(port)
  }

  /** Every listed port gets its listed name. */
  lemma ListedNamesLow()
    ensures GetServiceName(20) == "FTP-DATA" && GetServiceName(21) == "FTP"
    ensures GetServiceName(22) == "SSH" && GetServiceName(23) == "Telnet"
    ensures GetServiceName(25) == "SMTP" && GetServiceName(53) == "DNS"
    ensures GetServiceName(80) == "HTTP" && GetServiceName(110) == "POP3"
    ensures GetServiceName(143) == "IMAP"
  {
  }

  lemma ListedNamesHigh()
    ensures GetServiceName(443) == "HTTPS"
    ensures GetServiceName(3306) == "MySQL" && GetServiceName(5432) == "PostgreSQL"
    ensures GetServiceName(6379) == "Redis" && GetServiceName(8080) == "HTTP-Alt"
  {
  }

  /** For an unlisted port the name parses back to the port. */
  lemma UnlistedParsesBack(port: int)
    requires CommonPort(port).None? && InInt64(port)
    ensures Atoi(GetServiceName(port)) == Parsed(port, NoError)
  {
    AtoiItoa(port);
  }

  /** The names of two different ports are different. */
  lemma ServiceNameInjective(p: int, q: int)
    requires GetServiceName(p) == GetServiceName(q)
    ensures p == q
  {
    if CommonPort(p).None? && CommonPort(q).None? {
      ItoaInjective(p, q);
    }
  }
}
