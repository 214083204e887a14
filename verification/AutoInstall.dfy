/** The placeholders of an auto-install script, filled in by the same map loop as a machine configuration's. */
module AutoInstall {
  import opened Models
  import opened Templates

  /** The name is empty for a machine with no client row, and for a client without a name. */
  function Vars(mac: string, clientName: string, clientIP: string, serverAddr: string, imageName: string,
                filename: string): map<string, string> {
    map[
      "{{MAC}}" := mac,
      "{{CLIENT_NAME}}" := clientName,
      "{{HOSTNAME}}" := clientName,
      "{{IP}}" := clientIP,
      "{{SERVER_ADDR}}" := serverAddr,
      "{{IMAGE_NAME}}" := imageName,
      "{{IMAGE_FILENAME}}" := filename
    ]
  }

  lemma MachineKeysArePlain()
    ensures PlainKey("{{MAC}}") && PlainKey("{{CLIENT_NAME}}") && PlainKey("{{HOSTNAME}}") && PlainKey("{{IP}}")
  {
  }

  lemma ImageKeysArePlain()
    ensures PlainKey("{{SERVER_ADDR}}") && PlainKey("{{IMAGE_NAME}}") && PlainKey("{{IMAGE_FILENAME}}")
  {
  }

  lemma VarsArePlaceholders(mac: string, clientName: string, clientIP: string, serverAddr: string, imageName: string,
                            filename: string)
    ensures forall k <- Vars(mac, clientName, clientIP, serverAddr, imageName, filename).Keys :: PlainKey(k)
  {
    MachineKeysArePlain();
    ImageKeysArePlain();
  }

  /** For a nameless machine some script comes out differently from one iteration order to another. The address is
      in lower case, so it is not its own placeholder. */
  lemma NamelessMakesOrderMatter(mac: string, clientIP: string, serverAddr: string, imageName: string, filename: string)
    requires 'M' !in mac
    ensures var vars := Vars(mac, "", clientIP, serverAddr, imageName, filename);
            exists s, o1, o2 :: Enumerates(o1, vars.Keys) && Enumerates(o2, vars.Keys) &&
                                InOrder(s, o1, vars) != InOrder(s, o2, vars)
  {
    var vars := Vars(mac, "", clientIP, serverAddr, imageName, filename);
    VarsArePlaceholders(mac, "", clientIP, serverAddr, imageName, filename);
    var k1, k2 := "{{MAC}}", "{{HOSTNAME}}";
    assert k1[2] == 'M' && 'M' in k1;
    assert Aligned(vars[k2], k1, -1);
    var s, good, bad := FormingBreaksOrder(vars, k1, k2);
  }

  /** With every value plain, each script has one result: all placeholders replaced at once. */
  lemma PlainValuesHaveOneResult(mac: string, clientName: string, clientIP: string, serverAddr: string,
                                 imageName: string, filename: string, script: string, order: seq<string>)
    requires forall v <- [mac, clientName, clientIP, serverAddr, imageName, filename] :: PlainValue(v)
    requires Enumerates(order, Vars(mac, clientName, clientIP, serverAddr, imageName, filename).Keys)
    ensures var vars := Vars(mac, clientName, clientIP, serverAddr, imageName, filename);
            Placeholders(vars.Keys) && InOrder(script, order, vars) == Simultaneous(script, vars)
  {
    var vars := Vars(mac, clientName, clientIP, serverAddr, imageName, filename);
    var values := [mac, clientName, clientIP, serverAddr, imageName, filename];
    VarsArePlaceholders(mac, clientName, clientIP, serverAddr, imageName, filename);
    assert PlainValue(values[0]) && PlainValue(values[1]) && PlainValue(values[2]);
    assert PlainValue(values[3]) && PlainValue(values[4]) && PlainValue(values[5]);
    PlainValuesFormNothing(vars);
    AnyOrderIsSimultaneous(script, order, vars);
  }

  /** Each placeholder, as a script of its own, gives its value in every iteration order, when no value can take part
      in forming another. */
  lemma PlaceholdersGive(mac: string, clientName: string, clientIP: string, serverAddr: string, imageName: string,
                         filename: string, k: string, order: seq<string>)
    requires NothingForms(Vars(mac, clientName, clientIP, serverAddr, imageName, filename))
    requires Enumerates(order, Vars(mac, clientName, clientIP, serverAddr, imageName, filename).Keys) && k in order
    ensures var vars := Vars(mac, clientName, clientIP, serverAddr, imageName, filename);
            k in vars && InOrder(k, order, vars) == vars[k]
  {
    var vars := Vars(mac, clientName, clientIP, serverAddr, imageName, filename);
    VarsArePlaceholders(mac, clientName, clientIP, serverAddr, imageName, filename);
    KeyAlone(vars, k, order);
  }

  /** The values are the machine's address, name and IP address, the server's address and the image's names. */
  lemma ValuesAre(mac: string, clientName: string, clientIP: string, serverAddr: string, imageName: string,
                  filename: string, k: string)
    requires k in Vars(mac, clientName, clientIP, serverAddr, imageName, filename)
    ensures var v := Vars(mac, clientName, clientIP, serverAddr, imageName, filename)[k];
            || (k == "{{MAC}}" && v == mac) || (k == "{{IP}}" && v == clientIP)
            || (k == "{{CLIENT_NAME}}" && v == clientName) || (k == "{{HOSTNAME}}" && v == clientName)
            || (k == "{{SERVER_ADDR}}" && v == serverAddr) || (k == "{{IMAGE_NAME}}" && v == imageName)
            || (k == "{{IMAGE_FILENAME}}" && v == filename)
  {
  }
}
