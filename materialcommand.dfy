/** The undo/redo command for one property of a custom material
    (ChangeMaterialPropertyCommand), with the part of the material it uses. */
module MaterialCommands {
  import opened Wrappers

  /** A QVariant, as far as the command is concerned: an opaque value. */
  datatype Variant = Text(s: string) | Number(x: real) | Flag(b: bool) | Empty

  /** The declared type of a property; only "is it a texture" matters here. */
  datatype PropertyType = Texture | OtherType(typeName: string)

  /** A recorded call setTextureWithUniform(uniform, value.toString()); the
      conversion of the value to text is Qt's and is kept as the value itself. */
  datatype TextureCall = TextureCall(uniform: string, value: Variant)

  /** An iris::Property. Its name, type and uniform never change in this model. */
  class Property {
    const name: string
    const propType: PropertyType
    const uniform: string
    var value: Variant

    constructor (name: string, propType: PropertyType, uniform: string, value: Variant)
      ensures this.name == name && this.propType == propType
      ensures this.uniform == uniform && this.value == value
    {
      this.name := name;
      this.propType := propType;
      this.uniform := uniform;
      this.value := value;
    }

    /** setValue */
    method SetValue(v: Variant)
      modifies this`value
      ensures value == v
    {
      value := v;
    }
  }

  /** The position of the last property in `ps` named `name`, if any. */
  function LastMatch(ps: seq<Property>, name: string): (r: Option<nat>)
    ensures r.None? <==> forall j :: 0 <= j < |ps| ==> ps[j].name != name
    ensures r.Some? ==> r.value < |ps| && ps[r.value].name == name &&
                        forall j :: r.value < j < |ps| ==> ps[j].name != name
  {
    if |ps| == 0 then None
    else if ps[|ps| - 1].name == name then Some(|ps| - 1)
    else LastMatch(ps[..|ps| - 1], name)
  }

  /** The property the command's lookup selects, as a (possibly empty) set. */
  function Selected(ps: seq<Property>, name: string): set<Property>
  {
    match LastMatch(ps, name)
    case None => {}
    case Some(i) => {ps[i]}
  }

  /** An iris::CustomMaterial: its property list, and the texture calls made on it. */
  class CustomMaterial {
    var properties: seq<Property>
    var textureCalls: seq<TextureCall>

    constructor (properties: seq<Property>)
      ensures this.properties == properties && textureCalls == []
    {
      this.properties := properties;
      textureCalls := [];
    }

    /** setTextureWithUniform: (re)builds the texture bound to `uniform`; the
        model records the call. */
    method SetTextureWithUniform(uniform: string, value: Variant)
      modifies this`textureCalls
      ensures textureCalls == old(textureCalls) + [TextureCall(uniform, value)]
    {
      textureCalls := textureCalls + [TextureCall(uniform, value)];
    }

    /** The lookup loop of setMaterialProperty: every property is visited and the
        last one named `name` is kept; null when there is none. */
    method FindProperty(name: string) returns (prop: Property?)
      ensures prop == null <==> forall j :: 0 <= j < |properties| ==> properties[j].name != name
      ensures prop != null ==>
        exists i :: 0 <= i < |properties| && properties[i] == prop && prop.name == name &&
                    forall j :: i < j < |properties| ==> properties[j].name != name
    {
      prop := null;
      ghost var at: nat := 0;
      for i := 0 to |properties|
        invariant prop == null <==> forall j :: 0 <= j < i ==> properties[j].name != name
        invariant prop != null ==> at < i && properties[at] == prop && prop.name == name
        invariant prop != null ==> forall j :: at < j < i ==> properties[j].name != name
      {
        var property := properties[i];
        if property.name == name {
          prop := property;
          at := i;
        }
      }
    }
  }

  /** What setting property `name` to `value` does to `material`, when the
      property the lookup selects is `p`: a texture property is routed to
      setTextureWithUniform and keeps its value; any other property takes the
      value and no texture call is made. */
  twostate predicate PropertySet(material: CustomMaterial, p: Property, value: Variant)
    reads material, p
  {
    if p.propType == Texture then
      material.textureCalls == old(material.textureCalls) + [TextureCall(p.uniform, value)] &&
      p.value == old(p.value)
    else
      p.value == value && material.textureCalls == old(material.textureCalls)
  }

  class ChangeMaterialPropertyCommand {
    const material: CustomMaterial
    const propName: string
    const oldValue: Variant
    const newValue: Variant

    /** The constructor only records its arguments; the material is not touched. */
    constructor (material: CustomMaterial, name: string, oldValue: Variant, newValue: Variant)
      ensures this.material == material && propName == name
      ensures this.oldValue == oldValue && this.newValue == newValue
    {
      this.material := material;
      propName := name;
      this.newValue := newValue;
      this.oldValue := oldValue;
    }

    /** The property undo() and redo() act on. */
    function Target(): Property
      reads material
      requires LastMatch(material.properties, propName).Some?
    {
      material.properties[LastMatch(material.properties, propName).value]
    }

    /** setMaterialProperty: the last property named `name` is looked up (one must
        exist), then set as PropertySet says; no other property and nothing else
        of the material changes. */
    method SetMaterialProperty(name: string, value: Variant) returns (prop: Property)
      requires LastMatch(material.properties, name).Some?
      modifies material`textureCalls, Selected(material.properties, name)
      ensures prop == material.properties[LastMatch(material.properties, name).value]
      ensures PropertySet(material, prop, value)
    {
      var found := material.FindProperty(name);
      assert found != null;
      prop := found;
      assert prop == material.properties[LastMatch(material.properties, name).value];
      if prop.propType == Texture {
        material.SetTextureWithUniform(prop.uniform, value);
      } else {
        prop.SetValue(value);
      }
    }

    /** undo(): the selected property is set to the old value. */
    method Undo()
      requires LastMatch(material.properties, propName).Some?
      modifies material`textureCalls, Selected(material.properties, propName)
      ensures PropertySet(material, Target(), oldValue)
    {
      var _ := SetMaterialProperty(propName, oldValue);
    }

    /** redo(): the selected property is set to the new value. */
    method Redo()
      requires LastMatch(material.properties, propName).Some?
      modifies material`textureCalls, Selected(material.properties, propName)
      ensures PropertySet(material, Target(), newValue)
    {
      var _ := SetMaterialProperty(propName, newValue);
    }
  }

  /** For a property that is not a texture, redo() followed by undo() leaves it
      holding the old value, and no texture call is made. */
  method RedoThenUndo(cmd: ChangeMaterialPropertyCommand)
    requires LastMatch(cmd.material.properties, cmd.propName).Some?
    requires cmd.Target().propType != Texture
    modifies cmd.material`textureCalls, Selected(cmd.material.properties, cmd.propName)
    ensures cmd.Target().value == cmd.oldValue
    ensures cmd.material.textureCalls == old(cmd.material.textureCalls)
  {
    cmd.Redo();
    cmd.Undo();
  }

  /** For a property that is not a texture, redo() twice leaves it as redo()
      once does. */
  method RedoTwice(cmd: ChangeMaterialPropertyCommand)
    requires LastMatch(cmd.material.properties, cmd.propName).Some?
    requires cmd.Target().propType != Texture
    modifies cmd.material`textureCalls, Selected(cmd.material.properties, cmd.propName)
    ensures cmd.Target().value == cmd.newValue
    ensures cmd.material.textureCalls == old(cmd.material.textureCalls)
  {
    cmd.Redo();
    cmd.Redo();
  }

  /** For a texture property, redo() followed by undo() changes no property value
      and makes two texture calls, with the new and then the old value. */
  method RedoThenUndoTexture(cmd: ChangeMaterialPropertyCommand)
    requires LastMatch(cmd.material.properties, cmd.propName).Some?
    requires cmd.Target().propType == Texture
    modifies cmd.material`textureCalls, Selected(cmd.material.properties, cmd.propName)
    ensures cmd.Target().value == old(cmd.Target().value)
    ensures cmd.material.textureCalls == old(cmd.material.textureCalls) +
      [TextureCall(cmd.Target().uniform, cmd.newValue), TextureCall(cmd.Target().uniform, cmd.oldValue)]
  {
    cmd.Redo();
    cmd.Undo();
  }
}
