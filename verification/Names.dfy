/**
 * Object, namespace and data-key names. The configuration loader and the API server each
 * carry their own validators; both are proved against one definition here.
 * Every accepted character is ASCII, so byte lengths and character counts agree on every
 * accepted string, and a string with any other character is refused by both.
 */
module Names {
  import opened Text

  predicate LowerAlphaNumeric(c: char) {
    'a' <= c <= 'z' || '0' <= c <= '9'
  }

  /** A DNS label: 1 to 63 of a-z, 0-9 and '-', with no '-' at either end. */
  predicate DnsLabel(part: string) {
    && 1 <= |part| <= 63
    && LowerAlphaNumeric(part[0])
    && LowerAlphaNumeric(part[|part| - 1])
    && forall i :: 0 <= i < |part| ==> LowerAlphaNumeric(part[i]) || part[i] == '-'
  }

  /** A DNS subdomain: at most 253 characters of dot-separated labels. */
  predicate DnsSubdomain(name: string) {
    && 1 <= |name| <= 253
    && forall i :: 0 <= i < |Split(name, '.')| ==> DnsLabel(Split(name, '.')[i])
  }

  predicate DataKeyChar(c: char) {
    LowerAlphaNumeric(c) || 'A' <= c <= 'Z' || c == '-' || c == '_' || c == '.'
  }

  predicate DataKey(key: string) {
    1 <= |key| <= 253 && forall i :: 0 <= i < |key| ==> DataKeyChar(key[i])
  }

  lemma SubdomainChars(name: string)
    requires DnsSubdomain(name)
    ensures forall i :: 0 <= i < |name| ==> DataKeyChar(name[i])
  {
    forall k | 0 <= k < |name| ensures DataKeyChar(name[k]) {
      SplitCovers(name, '.', k);
    }
  }

  // ----- honeypots/k8s/handler -----

  method ValidObjectName(value: string) returns (ok: bool)
    ensures ok == DnsSubdomain(value)
  {
    if value == "" || |value| > 253 {
      return false;
    }
    var labels := Split(value, '.');
    for n := 0 to |labels|
      invariant forall i :: 0 <= i < n ==> DnsLabel(labels[i])
    {
      var part := labels[n];
      if |part| == 0 || |part| > 63 {
        return false;
      }
      for index := 0 to |part|
        invariant forall i :: 0 <= i < index ==> LowerAlphaNumeric(part[i]) || (part[i] == '-' && 0 < i < |part| - 1)
      {
        var valid := LowerAlphaNumeric(part[index]);
        if !valid && !(part[index] == '-' && index > 0 && index < |part| - 1) {
          assert !DnsLabel(part);
          return false;
        }
      }
    }
    return true;
  }

  method ValidNamespaceName(value: string) returns (ok: bool)
    ensures ok == DnsLabel(value)
  {
    var subdomain := ValidObjectName(value);
    ok := |value| <= 63 && '.' !in value && subdomain;
    if '.' !in value {
      assert value[..|value|] == value;
      FindUnique(value, '.', |value|);
      assert Split(value, '.') == [value] && Split(value, '.')[0] == value;
    } else {
      var i :| 0 <= i < |value| && value[i] == '.';
      assert !DnsLabel(value);
    }
  }

  method ValidSecretDataKey(key: string) returns (ok: bool)
    ensures ok == DataKey(key)
  {
    if key == "" || |key| > 253 {
      return false;
    }
    for n := 0 to |key|
      invariant forall i :: 0 <= i < n ==> DataKeyChar(key[i])
    {
      if !DataKeyChar(key[n]) {
        return false;
      }
    }
    return true;
  }

  // ----- config -----

  method ValidTokenName(name: string) returns (ok: bool)
    ensures ok == DnsSubdomain(name)
  {
    if |name| == 0 || |name| > 253 {
      return false;
    }
    var labels := Split(name, '.');
    for n := 0 to |labels|
      invariant forall i :: 0 <= i < n ==> DnsLabel(labels[i])
    {
      var part := labels[n];
      if |part| == 0 || |part| > 63 || !LowerAlphaNumeric(part[0]) || !LowerAlphaNumeric(part[|part| - 1]) {
        return false;
      }
      var inner := InnerCharsValid(part);
      if !inner {
        return false;
      }
    }
    return true;
  }

  method ValidDNSLabel(value: string) returns (ok: bool)
    ensures ok == DnsLabel(value)
  {
    if |value| == 0 || |value| > 63 || !LowerAlphaNumeric(value[0]) || !LowerAlphaNumeric(value[|value| - 1]) {
      return false;
    }
    ok := InnerCharsValid(value);
  }

  /** The loop both configuration validators run over the characters between the ends. */
  method InnerCharsValid(part: string) returns (ok: bool)
    requires part != "" && LowerAlphaNumeric(part[0]) && LowerAlphaNumeric(part[|part| - 1])
    ensures ok == forall i :: 0 <= i < |part| ==> LowerAlphaNumeric(part[i]) || part[i] == '-'
  {
    var i := 1;
    while i < |part| - 1
      invariant 1 <= i
      invariant forall k :: 0 <= k < i && k < |part| ==> LowerAlphaNumeric(part[k]) || part[k] == '-'
    {
      if !LowerAlphaNumeric(part[i]) && part[i] != '-' {
        return false;
      }
      i := i + 1;
    }
    return true;
  }
}
