/** System.Text.StringBuilder, reduced to the appends the serializers perform. */
module StringBuilding {

  class StringBuilder {
    var content: string

    constructor ()
      ensures content == []
    {
      content := [];
    }

    method Append(s: string)
      modifies this
      ensures content == old(content) + s
    {
      content := content + s;
    }

    function ToString(): string
      reads this
    {
      content
    }
  }
}
