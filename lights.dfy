// The point light of Lights.hpp: a position and a material of which only
// the ambient, diffuse and specular colours are meaningful.

module Lights {
  import opened Math3D
  import opened Scene

  const DefaultPosition: Vec3 := Origin
  const DefaultAmbientColor: Color := Color(0.2, 0.2, 0.2)
  const DefaultDiffuseColor: Color := Color(1.0, 1.0, 1.0)
  const DefaultSpecularColor: Color := Color(1.0, 1.0, 1.0)

  /** The material a light is built with: the three colours, then the fixed scalars 1, 0, 0, 1 (Lights.hpp:21). */
  function LightMaterial(ambient: Color, diffuse: Color, specular: Color): Material {
    Material(ambient, diffuse, specular, 1.0, 0.0, 0.0, 1.0)
  }

  class Light {
    var position: Vec3
    var material: Material

    function GetPosition(): Vec3
      reads this
    {
      position
    }

    function GetMaterial(): Material
      reads this
    {
      material
    }

    function GetAmbientColor(): Color
      reads this
    {
      material.ambient
    }

    function GetDiffuseColor(): Color
      reads this
    {
      material.diffuse
    }

    function GetSpecularColor(): Color
      reads this
    {
      material.specular
    }

    /** A light at `position` with the three given colours; every other material field is fixed. */
    constructor (position: Vec3, ambientColor: Color, diffuseColor: Color, specularColor: Color)
      ensures GetPosition() == position
      ensures GetAmbientColor() == ambientColor && GetDiffuseColor() == diffuseColor && GetSpecularColor() == specularColor
      ensures GetMaterial() == LightMaterial(ambientColor, diffuseColor, specularColor)
    {
      this.position := position;
      this.material := LightMaterial(ambientColor, diffuseColor, specularColor);
    }

    /** A light taking only the colours of `material`; its other fields are the fixed ones, not the input's. */
    constructor FromMaterial(position: Vec3, material: Material)
      ensures GetPosition() == position
      ensures GetAmbientColor() == material.ambient && GetDiffuseColor() == material.diffuse
      ensures GetSpecularColor() == material.specular
      ensures GetMaterial() == LightMaterial(material.ambient, material.diffuse, material.specular)
    {
      this.position := position;
      this.material := LightMaterial(material.ambient, material.diffuse, material.specular);
    }

    /** A light at `position`, the origin if none is given, with the default colours. */
    constructor AtPosition(position: Vec3 := DefaultPosition)
      ensures GetPosition() == position
      ensures GetAmbientColor() == DefaultAmbientColor
      ensures GetDiffuseColor() == DefaultDiffuseColor && GetSpecularColor() == DefaultSpecularColor
      ensures GetMaterial() == LightMaterial(DefaultAmbientColor, DefaultDiffuseColor, DefaultSpecularColor)
    {
      this.position := position;
      this.material := LightMaterial(DefaultAmbientColor, DefaultDiffuseColor, DefaultSpecularColor);
    }

    /** Sets all three colours; the position and the other material fields stay. */
    method SetColors(ambientColor: Color, diffuseColor: Color, specularColor: Color)
      modifies this
      ensures GetAmbientColor() == ambientColor && GetDiffuseColor() == diffuseColor && GetSpecularColor() == specularColor
      ensures GetPosition() == old(GetPosition())
      ensures GetMaterial() == old(GetMaterial()).(ambient := ambientColor, diffuse := diffuseColor, specular := specularColor)
    {
      material := material.(ambient := ambientColor);
      material := material.(diffuse := diffuseColor);
      material := material.(specular := specularColor);
    }

    method SetAmbientColor(ambientColor: Color)
      modifies this
      ensures GetAmbientColor() == ambientColor
      ensures GetDiffuseColor() == old(GetDiffuseColor()) && GetSpecularColor() == old(GetSpecularColor())
      ensures GetPosition() == old(GetPosition())
      ensures GetMaterial() == old(GetMaterial()).(ambient := ambientColor)
    {
      material := material.(ambient := ambientColor);
    }

    method SetDiffuseColor(diffuseColor: Color)
      modifies this
      ensures GetDiffuseColor() == diffuseColor
      ensures GetAmbientColor() == old(GetAmbientColor()) && GetSpecularColor() == old(GetSpecularColor())
      ensures GetPosition() == old(GetPosition())
      ensures GetMaterial() == old(GetMaterial()).(diffuse := diffuseColor)
    {
      material := material.(diffuse := diffuseColor);
    }

    method SetSpecularColor(specularColor: Color)
      modifies this
      ensures GetSpecularColor() == specularColor
      ensures GetAmbientColor() == old(GetAmbientColor()) && GetDiffuseColor() == old(GetDiffuseColor())
      ensures GetPosition() == old(GetPosition())
      ensures GetMaterial() == old(GetMaterial()).(specular := specularColor)
    {
      material := material.(specular := specularColor);
    }
  }
}
